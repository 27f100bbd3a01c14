/** The rename tool on one file: the `--apply` loop, and what holds of the file it writes. */
module RenameTool {
  import opened Prelude
  import opened RenameScan
  import opened RenameApply
  import opened RenameRescan

  function Sites(text: string): seq<Site> {
    Scan('\n', text, Code, 0)
  }

  lemma MarkedText(text: string, rel: string, wl: seq<Entry>)
    ensures var ps, edits := Mark('\n', text, Code, rel, wl), Edits(Sites(text), rel, wl);
      Old(ps) == text && Spliceable(text, 0, edits) && Splice(text, 0, edits) == New(ps)
  {
    var ps := Mark('\n', text, Code, rel, wl);
    assert text[0..] == text;
    MarkOld('\n', text, Code, rel, wl);
    MarkEdits('\n', text, Code, rel, wl, 0);
    SpliceIsNew(text, 0, ps);
  }

  /** The text `--apply` writes. */
  function Applied(text: string, rel: string, wl: seq<Entry>): string {
    MarkedText(text, rel, wl);
    Splice(text, 0, Edits(Sites(text), rel, wl))
  }

  // ----- the loop of `main` -----

  method SpliceLoop(text: string, edits: seq<nat>) returns (out: string)
    requires Spliceable(text, 0, edits)
    ensures out == Splice(text, 0, edits)
  {
    out := "";
    var prev := 0;
    assert edits[0..] == edits;
    for k := 0 to |edits|
      invariant prev == if k == 0 then 0 else edits[k - 1] + 7
      invariant Spliceable(text, prev, edits[k..])
      invariant Splice(text, 0, edits) == out + Splice(text, prev, edits[k..])
    {
      var off := edits[k];
      ghost var rest := Splice(text, off + 7, edits[k..][1..]);
      assert edits[k..][1..] == edits[k + 1..];
      SeqAssociates(out, text[prev..off] + "lemma", rest);
      SeqAssociates(out, text[prev..off], "lemma");
      out := out + text[prev..off];
      out := out + "lemma";
      prev := off + 7;
    }
    out := out + text[prev..];
  }

  lemma NothingYet(rel: string, wl: seq<Entry>)
    ensures Edits([], rel, wl) == [] && KeptSites([], rel, wl) == []
  {
  }

  lemma OneSite(x: Site, rel: string, wl: seq<Entry>)
    ensures Edits([x], rel, wl) == if Allowed(rel, x.name, wl) then [] else [x.off]
    ensures KeptSites([x], rel, wl) == if Allowed(rel, x.name, wl) then [x] else []
  {
    assert [x][1..] == [];
  }

  lemma AppliedIs(text: string, rel: string, wl: seq<Entry>)
    ensures var edits := Edits(Sites(text), rel, wl);
      Spliceable(text, 0, edits) && Applied(text, rel, wl) == Splice(text, 0, edits)
  {
    hide Edits, Scan, Spliceable, Splice;
    MarkedText(text, rel, wl);
  }

  lemma NothingToDo(text: string, rel: string, wl: seq<Entry>)
    requires Edits(Sites(text), rel, wl) == []
    ensures Applied(text, rel, wl) == text
  {
    hide Edits, Scan;
    assert text[0..] == text;
  }

  method ApplyFile(text: string, rel: string, wl: seq<Entry>) returns (out: string, kept: nat, renamed: nat)
    ensures out == Applied(text, rel, wl)
    ensures kept == |KeptSites(Sites(text), rel, wl)| && renamed == |Edits(Sites(text), rel, wl)|
  {
    hide Edits, KeptSites, Scan, Allowed, Applied, Spliceable;
    var sites := ScanFile(text);
    var edits := [];
    kept := 0;
    assert sites[..0] == [];
    NothingYet(rel, wl);
    for i := 0 to |sites|
      invariant edits == Edits(sites[..i], rel, wl) && kept == |KeptSites(sites[..i], rel, wl)|
    {
      EditsAppend(sites[..i], [sites[i]], rel, wl);
      KeptAppend(sites[..i], [sites[i]], rel, wl);
      assert sites[..i + 1] == sites[..i] + [sites[i]];
      OneSite(sites[i], rel, wl);
      var ok := NameAllowed(rel, sites[i].name, wl);
      if ok {
        kept := kept + 1;
      } else {
        edits := edits + [sites[i].off];
      }
    }
    assert sites[..|sites|] == sites;
    AppliedIs(text, rel, wl);
    out := text;
    if edits != [] {
      out := SpliceLoop(text, edits);
    } else {
      NothingToDo(text, rel, wl);
    }
    renamed := |edits|;
  }

  /** The edits are the sites that no entry allows. */
  lemma {:induction false} EditsExact(sites: seq<Site>, rel: string, wl: seq<Entry>)
    ensures forall x :: x in sites && !Allowed(rel, x.name, wl) ==> x.off in Edits(sites, rel, wl)
    ensures forall e :: e in Edits(sites, rel, wl) ==> exists x :: x in sites && x.off == e && !Allowed(rel, x.name, wl)
  {
    hide Allowed;
    if sites != [] {
      EditsExact(sites[1..], rel, wl);
      assert forall x :: x in sites <==> x == sites[0] || x in sites[1..];
      forall e | e in Edits(sites, rel, wl) ensures exists x :: x in sites && x.off == e && !Allowed(rel, x.name, wl) {
        if e in Edits(sites[1..], rel, wl) {
          var x :| x in sites[1..] && x.off == e && !Allowed(rel, x.name, wl);
          assert x in sites;
        } else {
          assert sites[0] in sites;
        }
      }
    }
  }

  predicate Untouched(edits: seq<nat>, i: nat) {
    forall e :: e in edits ==> !(e <= i < e + 7)
  }

  /** What splicing makes of each character: outside the edits it stays, two places earlier per edit
      before it, and at every edit stands `lemma`. */
  lemma {:induction false} SpliceMeans(text: string, prev: nat, edits: seq<nat>, i: nat)
    requires Spliceable(text, prev, edits) && prev <= i < |text|
    ensures Means(text, edits, i, Splice(text, prev, edits), i - prev - 2 * Below(edits, i))
    decreases |edits|
  {
    hide Means, Below, Splice;
    if edits == [] {
      NoEditMeans(text, prev, i);
    } else {
      var e, later := edits[0], edits[1..];
      var rest := Splice(text, e + 7, later);
      SpliceFirst(text, prev, edits);
      LaterEdits(text, e + 7, later);
      if i < e + 7 {
        NoneBelow(later, i);
        BeforeNext(text, prev, edits, i, rest);
      } else {
        SpliceMeans(text, e + 7, later, i);
        AfterNext(text, prev, edits, i, rest);
      }
    }
  }

  ghost predicate Means(text: string, edits: seq<nat>, i: nat, out: string, k: int)
    requires i < |text|
  {
    && (Untouched(edits, i) ==> 0 <= k < |out| && out[k] == text[i])
    && (i in edits ==> 0 <= k <= |out| - 5 && out[k..k + 5] == "lemma")
  }

  lemma NoEditMeans(text: string, prev: nat, i: nat)
    requires prev <= i < |text|
    ensures Means(text, [], i, Splice(text, prev, []), i - prev - 2 * Below([], i))
  {
  }

  lemma BeforeNext(text: string, prev: nat, edits: seq<nat>, i: nat, rest: string)
    requires edits != [] && prev <= edits[0] <= |text| - 7 && prev <= i < edits[0] + 7
    requires Below(edits[1..], i) == 0 && forall e :: e in edits[1..] ==> edits[0] + 7 <= e
    ensures Means(text, edits, i, text[prev..edits[0]] + "lemma" + rest, i - prev - 2 * Below(edits, i))
  {
    var e := edits[0];
    var out := text[prev..e] + "lemma" + rest;
    assert e in edits && forall x :: x in edits <==> x == e || x in edits[1..];
    if i < e {
      assert out[i - prev] == text[prev..e][i - prev];
    } else if i == e {
      assert out[i - prev..i - prev + 5] == "lemma";
    }
  }

  lemma AfterNext(text: string, prev: nat, edits: seq<nat>, i: nat, rest: string)
    requires edits != [] && prev <= edits[0] <= |text| - 7 && edits[0] + 7 <= i < |text|
    requires Means(text, edits[1..], i, rest, i - edits[0] - 7 - 2 * Below(edits[1..], i))
    ensures Means(text, edits, i, text[prev..edits[0]] + "lemma" + rest, i - prev - 2 * Below(edits, i))
  {
    var e, later := edits[0], edits[1..];
    var front := text[prev..e] + "lemma";
    var out := front + rest;
    assert forall x :: x in edits <==> x == e || x in later;
    var k := i - e - 7 - 2 * Below(later, i);
    assert |front| + k == i - prev - 2 * Below(edits, i);
    if Untouched(edits, i) { assert out[|front| + k] == rest[k]; }
    if i in later { assert out[|front| + k..|front| + k + 5] == rest[k..k + 5]; }
  }

  lemma {:induction false} LaterEdits(text: string, prev: nat, edits: seq<nat>)
    requires Spliceable(text, prev, edits)
    ensures forall e :: e in edits ==> prev <= e
    decreases |edits|
  {
    if edits != [] {
      LaterEdits(text, edits[0] + 7, edits[1..]);
      assert forall e :: e in edits ==> e == edits[0] || e in edits[1..];
    }
  }

  // ----- the second scan -----

  /** For every text and whitelist, scanning the rewritten file shows exactly the kept sites, each
      two characters earlier per keyword rewritten before it, and under the name that the edits inside
      it leave, which is the old one if and only if there are none. */
  lemma RescanAfterApply(text: string, rel: string, wl: seq<Entry>)
    ensures var edits, kept := Edits(Sites(text), rel, wl), KeptSites(Sites(text), rel, wl);
      AllShown(text, edits, 0, kept, Sites(Applied(text, rel, wl)))
  {
    MarkedText(text, rel, wl);
    assert text[0..] == text;
    Simulate(text, 0, '\n', '\n', Code, 0, rel, wl);
  }

  /** With nothing whitelisted, no `theorem` site is left. */
  lemma NothingLeft(text: string, rel: string)
    ensures Sites(Applied(text, rel, [])) == []
  {
    RescanAfterApply(text, rel, []);
    NoneKept(Sites(text), rel);
  }

  lemma {:induction false} NoneKept(sites: seq<Site>, rel: string)
    ensures KeptSites(sites, rel, []) == []
  {
    if sites != [] { NoneKept(sites[1..], rel); }
  }

  /** The kept sites where they lie after the rewrite. */
  function Moved(kept: seq<Site>, edits: seq<nat>): seq<Site>
    requires forall x :: x in kept ==> 2 * Below(edits, x.off) <= x.off
  {
    seq(|kept|, i requires 0 <= i < |kept| => Site(kept[i].off - 2 * Below(edits, kept[i].off), kept[i].name))
  }

  lemma ShiftsFit(text: string, rel: string, wl: seq<Entry>)
    ensures var edits, kept := Edits(Sites(text), rel, wl), KeptSites(Sites(text), rel, wl);
      forall x :: x in kept ==> 2 * Below(edits, x.off) <= x.off && x.off + 7 <= |text|
  {
    RescanAfterApply(text, rel, wl);
    var edits, kept := Edits(Sites(text), rel, wl), KeptSites(Sites(text), rel, wl);
    var again := Sites(Applied(text, rel, wl));
    forall x | x in kept ensures 2 * Below(edits, x.off) <= x.off && x.off + 7 <= |text| {
      var i :| 0 <= i < |kept| && kept[i] == x;
      assert Shown(text, edits, 0, kept[i], again[i]);
    }
  }

  /** No rewritten keyword lies inside the name of a kept site. */
  predicate NamesUntouched(text: string, rel: string, wl: seq<Entry>) {
    ShiftsFit(text, rel, wl);
    forall x :: x in KeptSites(Sites(text), rel, wl) ==> !EditInName(text, Edits(Sites(text), rel, wl), x.off)
  }

  /** The second scan gives the kept sites with their names exactly when no kept name was touched. */
  lemma FixpointIff(text: string, rel: string, wl: seq<Entry>)
    ensures forall x :: x in KeptSites(Sites(text), rel, wl) ==> 2 * Below(Edits(Sites(text), rel, wl), x.off) <= x.off
    ensures Sites(Applied(text, rel, wl)) == Moved(KeptSites(Sites(text), rel, wl), Edits(Sites(text), rel, wl))
      <==> NamesUntouched(text, rel, wl)
  {
    ShiftsFit(text, rel, wl);
    RescanAfterApply(text, rel, wl);
    var edits, kept := Edits(Sites(text), rel, wl), KeptSites(Sites(text), rel, wl);
    var again := Sites(Applied(text, rel, wl));
    var moved := Moved(kept, edits);
    if NamesUntouched(text, rel, wl) {
      forall i | 0 <= i < |kept| ensures again[i] == moved[i] {
        assert Shown(text, edits, 0, kept[i], again[i]);
        assert kept[i] in kept;
      }
      assert again == moved;
    }
    if again == moved {
      forall x | x in kept ensures !EditInName(text, edits, x.off) {
        var i :| 0 <= i < |kept| && kept[i] == x;
        assert Shown(text, edits, 0, kept[i], again[i]);
        assert again[i] == moved[i];
      }
    }
  }

  lemma {:induction false} SpliceLength(text: string, prev: nat, edits: seq<nat>)
    requires Spliceable(text, prev, edits)
    ensures |Splice(text, prev, edits)| == |text| - prev - 2 * |edits|
    decreases |edits|
  {
    if edits != [] { SpliceLength(text, edits[0] + 7, edits[1..]); }
  }

  /** `--apply` leaves a file as it is exactly when `--check` has nothing to report. */
  lemma ApplyChangesNothingIff(text: string, rel: string, wl: seq<Entry>)
    ensures Applied(text, rel, wl) == text <==> Edits(Sites(text), rel, wl) == []
    ensures Edits(Sites(text), rel, wl) == [] <==> forall x :: x in Sites(text) ==> Allowed(rel, x.name, wl)
  {
    MarkedText(text, rel, wl);
    SpliceLength(text, 0, Edits(Sites(text), rel, wl));
    assert text[0..] == text;
    NoEditsIff(Sites(text), rel, wl);
  }

  lemma {:induction false} NoEditsIff(sites: seq<Site>, rel: string, wl: seq<Entry>)
    ensures Edits(sites, rel, wl) == [] <==> forall x :: x in sites ==> Allowed(rel, x.name, wl)
  {
    if sites != [] {
      assert forall x :: x in sites <==> x == sites[0] || x in sites[1..];
      NoEditsIff(sites[1..], rel, wl);
    }
  }

  /** The name a site will have is whitelisted. The old text and its edits decide it. */
  predicate StillAllowed(text: string, edits: seq<nat>, off: nat, rel: string, wl: seq<Entry>)
    requires off + 7 <= |text|
  {
    NameEndFits(text, off);
    var n := Renamed(text, edits, off);
    n.Some? && Allowed(rel, n.value, wl)
  }

  /** After `--apply`, `--check` passes and a second `--apply` changes nothing exactly when every kept
      site with an edit inside its name is also whitelisted under the name the edits leave. */
  lemma ApplyTwiceIff(text: string, rel: string, wl: seq<Entry>)
    ensures var edits, kept := Edits(Sites(text), rel, wl), KeptSites(Sites(text), rel, wl);
      var out := Applied(text, rel, wl);
      && (forall x :: x in kept ==> x.off + 7 <= |text|)
      && (Applied(out, rel, wl) == out <==> Edits(Sites(out), rel, wl) == [])
      && (Edits(Sites(out), rel, wl) == [] <==>
            forall x :: x in kept && EditInName(text, edits, x.off) ==> StillAllowed(text, edits, x.off, rel, wl))
  {
    hide EditInName, Edits, Allowed, Renamed;
    var edits, kept := Edits(Sites(text), rel, wl), KeptSites(Sites(text), rel, wl);
    var out := Applied(text, rel, wl);
    var again := Sites(out);
    ShiftsFit(text, rel, wl);
    RescanAfterApply(text, rel, wl);
    ApplyChangesNothingIff(out, rel, wl);
    KeptRange(Sites(text), rel, wl);
    forall i | 0 <= i < |kept|
      ensures StillAllowed(text, edits, kept[i].off, rel, wl) <==> Allowed(rel, again[i].name, wl)
      ensures !EditInName(text, edits, kept[i].off) ==> Allowed(rel, again[i].name, wl)
    {
      assert Shown(text, edits, 0, kept[i], again[i]);
      assert kept[i] in kept;
    }
    AllOrNone(text, edits, rel, wl, kept, again);
  }

  lemma AllOrNone(text: string, edits: seq<nat>, rel: string, wl: seq<Entry>, kept: seq<Site>, again: seq<Site>)
    requires |again| == |kept| && forall x :: x in kept ==> x.off + 7 <= |text|
    requires forall i :: 0 <= i < |kept| ==>
      (StillAllowed(text, edits, kept[i].off, rel, wl) <==> Allowed(rel, again[i].name, wl))
    requires forall i :: 0 <= i < |kept| && !EditInName(text, edits, kept[i].off) ==> Allowed(rel, again[i].name, wl)
    ensures (forall x :: x in again ==> Allowed(rel, x.name, wl)) <==>
      forall x :: x in kept && EditInName(text, edits, x.off) ==> StillAllowed(text, edits, x.off, rel, wl)
  {
    hide EditInName, StillAllowed, Allowed;
    if forall x :: x in again ==> Allowed(rel, x.name, wl) {
      forall x | x in kept && EditInName(text, edits, x.off) ensures StillAllowed(text, edits, x.off, rel, wl) {
        var i :| 0 <= i < |kept| && kept[i] == x;
        assert again[i] in again;
      }
    }
    if forall x :: x in kept && EditInName(text, edits, x.off) ==> StillAllowed(text, edits, x.off, rel, wl) {
      forall x | x in again ensures Allowed(rel, x.name, wl) {
        var i :| 0 <= i < |again| && again[i] == x;
        assert kept[i] in kept;
      }
    }
  }

  /** In particular when no kept name was touched. */
  lemma ApplyTwice(text: string, rel: string, wl: seq<Entry>)
    requires NamesUntouched(text, rel, wl)
    ensures var out := Applied(text, rel, wl);
      Edits(Sites(out), rel, wl) == [] && Applied(out, rel, wl) == out
  {
    hide EditInName, Edits, Allowed, Applied;
    ShiftsFit(text, rel, wl);
    ApplyTwiceIff(text, rel, wl);
    var kept := KeptSites(Sites(text), rel, wl);
    assert forall i :: 0 <= i < |kept| ==> kept[i] in kept;
  }

  /** A whitelisted name can be rewritten from inside: the word `theorem` itself, declared, is both
      a kept site's name and an edited keyword. The kept site is then reported under its new name,
      and a second `--apply` rewrites it too. */
  lemma KeptNameRewritten()
    ensures var text, wl := "theorem theorem x", WHITELIST;
      && Sites(text) == [Site(0, "theorem"), Site(8, "x")]
      && Edits(Sites(text), "f", wl) == [8]
      && !NamesUntouched(text, "f", wl)
      && var out := Applied(text, "f", wl);
      && out == "theorem lemma x"
      && Sites(out) == [Site(0, "lemma")]
      && Edits(Sites(out), "f", wl) == [0]
      && Applied(out, "f", wl) == "lemma lemma x"
  {
    hide Sites, Edits, Applied, NamesUntouched;
    FirstEdits();
    FirstText("theorem theorem x", "theorem lemma x");
    SecondEdits();
    SecondText("theorem lemma x", "lemma lemma x");
  }

  /** The whitelist of the example: the declaration named `theorem` in file `f`. */
  const WHITELIST := [Entry("f", "theorem")]

  lemma OneEdit(text: string, rel: string, wl: seq<Entry>, k: nat)
    requires Edits(Sites(text), rel, wl) == [k]
    ensures k + 7 <= |text| && Applied(text, rel, wl) == text[..k] + "lemma" + text[k + 7..]
  {
    hide Scan, Edits;
    MarkedText(text, rel, wl);
    assert [k][1..] == [];
    assert Splice(text, k + 7, []) == text[k + 7..];
  }

  lemma FirstText(text: string, out: string)
    requires text == "theorem theorem x" && out == "theorem lemma x"
    requires Edits(Sites(text), "f", WHITELIST) == [8]
    ensures Applied(text, "f", WHITELIST) == out
  {
    hide Sites, Edits, Applied;
    OneEdit(text, "f", WHITELIST, 8);
    assert text[..8] == "theorem " && text[15..] == " x";
  }

  lemma SecondText(text: string, out: string)
    requires text == "theorem lemma x" && out == "lemma lemma x"
    requires Edits(Sites(text), "f", WHITELIST) == [0]
    ensures Applied(text, "f", WHITELIST) == out
  {
    hide Sites, Edits, Applied;
    OneEdit(text, "f", WHITELIST, 0);
    assert text[..0] == "" && text[7..] == " lemma x";
  }

  lemma FirstEdits()
    ensures var text := "theorem theorem x";
      && Sites(text) == [Site(0, "theorem"), Site(8, "x")]
      && Edits(Sites(text), "f", WHITELIST) == [8]
      && !NamesUntouched(text, "f", WHITELIST)
  {
    hide Scan, NameAt, BlankRun;
    var text := "theorem theorem x";
    SitesOfExample();
    assert WHITELIST[0] in WHITELIST && EntryAllows(WHITELIST[0], "f", "theorem");
    assert !Allowed("f", "x", WHITELIST);
    assert [Site(0, "theorem"), Site(8, "x")][1..] == [Site(8, "x")];
    KeptRange(Sites(text), "f", WHITELIST);
    var kept := KeptSites(Sites(text), "f", WHITELIST);
    assert kept[0] == Site(0, "theorem") && kept[0] in kept;
    assert text[7..] == " theorem x" && text[8..] == "theorem x";
    NameOfExample();
    BlankRunFrom(text, 7, 8);
    assert text[7..][1..] == text[8..];
    assert EditInName(text, [8], 0) by { assert 8 in [8]; }
  }

  lemma SecondEdits()
    ensures Sites("theorem lemma x") == [Site(0, "lemma")]
    ensures Edits([Site(0, "lemma")], "f", WHITELIST) == [0]
  {
    hide Scan, DeclaredName;
    LemmaDeclared();
    assert "theorem" + " lemma x" == "theorem lemma x";
    KeywordScan('\n', " lemma x", 0, "lemma");
    LettersScan('m', " lemma x", 7);
    assert !Allowed("f", "lemma", WHITELIST);
    assert [Site(0, "lemma")][1..] == [];
  }

  /** A simple name: letters up to a blank or the end. */
  lemma SimpleName(name: string, tail: string)
    requires name != "" && (forall c :: c in name ==> 'a' <= c <= 'z') && (tail == "" || tail[0] == ' ')
    ensures NameAt(name + tail) == Some((name, |name|))
  {
    var r := name + tail;
    var k := |name|;
    assert forall i :: 0 <= i < k ==> r[i] == name[i] && r[i] in name;
    assert k < |r| ==> r[k] == ' ';
    IdentRunFrom(r, 0, k);
    assert r[0..] == r && r[..k] == name && r[k..] == tail;
  }

  lemma SimpleDeclared(name: string, tail: string)
    requires name != "" && (forall c :: c in name ==> 'a' <= c <= 'z') && (tail == "" || tail[0] == ' ')
    ensures DeclaredName(" " + name + tail) == Some(name)
  {
    hide NameAt;
    var r := " " + name + tail;
    assert r[1..] == name + tail && r[1] in name && r[0] == ' ';
    BlankRunFrom(r, 0, 1);
    assert r[0..] == r;
    SimpleName(name, tail);
  }

  lemma LemmaDeclared()
    ensures DeclaredName(" lemma x") == Some("lemma")
  {
    hide DeclaredName;
    SimpleDeclared("lemma", " x");
    assert " " + "lemma" + " x" == " lemma x";
  }

  lemma {:induction false} LettersScan(prev: char, x: string, off: nat)
    requires forall c :: c in x ==> c != '/' && c != '-' && c != '"' && c != '\'' && c != 't'
    ensures Scan(prev, x, Code, off) == []
    decreases |x|
  {
    if x != "" {
      assert x[0] in x && forall c :: c in x[1..] ==> c in x;
      assert x == [x[0]] + x[1..];
      LetterScan(prev, x[0], x[1..], off);
      LettersScan(x[0], x[1..], off + 1);
    }
  }

  lemma NameOfExample()
    ensures NameAt("theorem x") == Some(("theorem", 7))
  {
    hide NameAt;
    SimpleName("theorem", " x");
    assert "theorem" + " x" == "theorem x";
  }

  lemma KeywordScan(prev: char, rest: string, off: nat, name: string)
    requires !IsIdent(prev) && !IsNameDot(prev)
    requires rest != "" && IsBlank(rest[0]) && DeclaredName(rest) == Some(name)
    ensures Scan(prev, "theorem" + rest, Code, off) == [Site(off, name)] + Scan('m', rest, Code, off + 7)
  {
    hide Scan, DeclaredName;
    var r := "theorem" + rest;
    assert r[..7] == "theorem" && r[7..] == rest && r[7] == rest[0];
    assert IsKeyword(prev, r);
    assert Step(prev, r, Code) == StepResult(7, Code, Some(name));
    ScanOnce(prev, r, Code, off, "theorem", rest);
  }

  lemma DeclaredOfExample()
    ensures DeclaredName(" theorem x") == Some("theorem") && DeclaredName(" x") == Some("x")
  {
    hide DeclaredName;
    SimpleDeclared("theorem", " x");
    SimpleDeclared("x", "");
    assert " " + "theorem" + " x" == " theorem x" && " " + "x" + "" == " x";
  }

  lemma SecondSite(x: string)
    requires x == "theorem x"
    ensures Scan(' ', x, Code, 8) == [Site(8, "x")]
  {
    hide Scan, DeclaredName;
    DeclaredOfExample();
    assert x == "theorem" + " x";
    KeywordScan(' ', " x", 8, "x");
    LettersScan('m', " x", 15);
  }

  lemma SitesOfExample()
    ensures Sites("theorem theorem x") == [Site(0, "theorem"), Site(8, "x")]
  {
    hide Scan, DeclaredName;
    DeclaredOfExample();
    assert "theorem" + " theorem x" == "theorem theorem x";
    KeywordScan('\n', " theorem x", 0, "theorem");
    assert [' '] + "theorem x" == " theorem x";
    LetterScan('m', ' ', "theorem x", 7);
    SecondSite("theorem x");
  }
}
