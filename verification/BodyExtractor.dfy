/** Pruning the page body: the streaming filter of `BodyExtractor`, which counts tags of one
    name to know where a dropped element ends, against removing subtrees from the tree. */
module BodyExtractor {
  import opened Prelude

  /** An attribute as the HTML parser reports it; a bare one has no value. */
  datatype Attr = Attr(name: string, value: Option<string>)

  datatype Event =
    | Start(tag: string, attrs: seq<Attr>)
    | StartEnd(tag: string, attrs: seq<Attr>)
    | End(tag: string)
    | Data(text: string)

  // ----- what is dropped -----

  /** `dict(attrs).get(name) or ""`: the last one wins. */
  function Get(attrs: seq<Attr>, name: string): string {
    if attrs == [] then ""
    else
      var last := attrs[|attrs| - 1];
      if last.name == name then (if last.value.Some? then last.value.value else "")
      else Get(attrs[..|attrs| - 1], name)
  }

  predicate EndsWith(s: string, tail: string) {
    |tail| <= |s| && s[|s| - |tail|..] == tail
  }

  predicate ShouldDrop(tag: string, attrs: seq<Attr>) {
    var cls, id := Get(attrs, "class"), Get(attrs, "id");
    || tag == "script" || tag == "template" || tag == "header"
    || (tag == "nav" && id == "toc")
    || Contains("bp_external_decl_body", cls) || Contains("bp_graph", cls) || Contains("bp_summary", cls)
    || EndsWith(id, "--Dependency-Graph") || EndsWith(id, "--Blueprint-Summary")
  }

  // ----- what is written -----

  function AttrText(attrs: seq<Attr>): string {
    if attrs == [] then ""
    else
      var a := attrs[0];
      " " + a.name + "=\"" + (if a.value.Some? then a.value.value else "None") + "\"" + AttrText(attrs[1..])
  }

  function OpenText(tag: string, attrs: seq<Attr>): string {
    "<" + tag + AttrText(attrs) + ">"
  }

  function SelfClosedText(tag: string, attrs: seq<Attr>): string {
    "<" + tag + AttrText(attrs) + "/>"
  }

  function CloseText(tag: string): string {
    "</" + tag + ">"
  }

  // ----- the attributes, one by one -----

  /** The attribute at `i` is the last one of its name. */
  ghost predicate LastAt(attrs: seq<Attr>, i: int, name: string, v: string) {
    0 <= i < |attrs| && attrs[i] == Attr(name, Some(v)) && forall j :: i < j < |attrs| ==> attrs[j].name != name
  }

  /** The last attribute of that name has the value `v`. */
  ghost predicate Carries(attrs: seq<Attr>, name: string, v: string) {
    exists i :: LastAt(attrs, i, name, v)
  }

  /** A value is found exactly when it is the last one given; a bare attribute counts as empty. */
  lemma {:induction false} GetIs(attrs: seq<Attr>, name: string, v: string)
    requires v != ""
    ensures Get(attrs, name) == v <==> Carries(attrs, name, v)
  {
    if attrs != [] {
      var n := |attrs| - 1;
      var front, last := attrs[..n], attrs[n];
      if last.name == name {
        if last.value == Some(v) { assert LastAt(attrs, n, name, v); }
      } else {
        GetIs(front, name, v);
        assert attrs == front + [last];
        forall i | 0 <= i < |attrs| ensures LastAt(attrs, i, name, v) <==> LastAt(front, i, name, v) {
          LastBefore(front, last, i, name, v);
        }
      }
    }
  }

  lemma LastBefore(front: seq<Attr>, last: Attr, i: nat, name: string, v: string)
    requires last.name != name
    ensures LastAt(front + [last], i, name, v) <==> LastAt(front, i, name, v)
  {
    var attrs := front + [last];
    if LastAt(attrs, i, name, v) {
      assert forall j :: i < j < |front| ==> front[j] == attrs[j];
    }
  }

  /** One of the words stands somewhere in the class. */
  ghost predicate ClassHolds(attrs: seq<Attr>, word: string) {
    exists a: string, b: string :: Carries(attrs, "class", a + word + b)
  }

  ghost predicate IdEndsWith(attrs: seq<Attr>, word: string) {
    exists a: string :: Carries(attrs, "id", a + word)
  }

  lemma ContainsMiddle(word: string, s: string)
    ensures Contains(word, s) <==> exists a: string, b: string :: s == a + word + b
  {
    if Contains(word, s) {
      var i :| 0 <= i <= |s| && word <= s[i..];
      assert s == s[..i] + word + s[i + |word|..];
    }
    if a: string, b: string :| s == a + word + b {
      assert s[|a|..] == word + b;
    }
  }

  lemma ClassSearch(attrs: seq<Attr>, word: string)
    requires word != ""
    ensures Contains(word, Get(attrs, "class")) <==> ClassHolds(attrs, word)
  {
    var cls := Get(attrs, "class");
    ContainsMiddle(word, cls);
    if a: string, b: string :| cls == a + word + b {
      assert (a + word + b)[|a|] == word[0];
      GetIs(attrs, "class", cls);
    }
    if ClassHolds(attrs, word) {
      var a: string, b: string :| Carries(attrs, "class", a + word + b);
      GetIs(attrs, "class", a + word + b);
    }
  }

  lemma IdSearch(attrs: seq<Attr>, word: string)
    requires word != ""
    ensures EndsWith(Get(attrs, "id"), word) <==> IdEndsWith(attrs, word)
  {
    var id := Get(attrs, "id");
    if EndsWith(id, word) {
      assert id == id[..|id| - |word|] + word;
      GetIs(attrs, "id", id);
    }
    if IdEndsWith(attrs, word) {
      var a: string :| Carries(attrs, "id", a + word);
      GetIs(attrs, "id", a + word);
      assert (a + word)[|a|..] == word;
    }
  }

  /** Exactly the elements that are dropped. */
  lemma DropIff(tag: string, attrs: seq<Attr>)
    ensures ShouldDrop(tag, attrs) <==>
      || tag in ["script", "template", "header"]
      || (tag == "nav" && Carries(attrs, "id", "toc"))
      || ClassHolds(attrs, "bp_external_decl_body") || ClassHolds(attrs, "bp_graph")
      || ClassHolds(attrs, "bp_summary")
      || IdEndsWith(attrs, "--Dependency-Graph") || IdEndsWith(attrs, "--Blueprint-Summary")
  {
    hide Contains, EndsWith, Get, Carries, ClassHolds, IdEndsWith;
    GetIs(attrs, "id", "toc");
    ClassSearch(attrs, "bp_external_decl_body");
    ClassSearch(attrs, "bp_graph");
    ClassSearch(attrs, "bp_summary");
    IdSearch(attrs, "--Dependency-Graph");
    IdSearch(attrs, "--Blueprint-Summary");
  }

  /** The written tags, attribute by attribute; a bare attribute is written with the value `None`. */
  lemma TagForms(tag: string, attrs: seq<Attr>, name: string, v: string)
    ensures CloseText(tag) == "</" + tag + ">"
    ensures OpenText(tag, []) == "<" + tag + ">" && SelfClosedText(tag, []) == "<" + tag + "/>"
    ensures var t := OpenText(tag, attrs);
      && OpenText(tag, attrs + [Attr(name, Some(v))]) == t[..|t| - 1] + " " + name + "=\"" + v + "\">"
      && OpenText(tag, attrs + [Attr(name, None)]) == t[..|t| - 1] + " " + name + "=\"None\">"
    ensures var t := SelfClosedText(tag, attrs);
      && SelfClosedText(tag, attrs + [Attr(name, Some(v))]) == t[..|t| - 2] + " " + name + "=\"" + v + "\"/>"
      && SelfClosedText(tag, attrs + [Attr(name, None)]) == t[..|t| - 2] + " " + name + "=\"None\"/>"
  {
    hide AttrText;
    AttrTextMore(attrs, name, Some(v));
    AttrTextMore(attrs, name, None);
    NoAttributes();
    assert "<" + tag + "" == "<" + tag;
    var w, n := " " + name + "=\"" + v + "\"", " " + name + "=\"None\"";
    Appends(tag, AttrText(attrs), w);
    Appends(tag, AttrText(attrs), n);
  }

  lemma NoAttributes()
    ensures AttrText([]) == ""
  {
  }

  lemma Appends(tag: string, attrText: string, w: string)
    ensures var t := "<" + tag + attrText + ">"; "<" + tag + (attrText + w) + ">" == t[..|t| - 1] + w + ">"
    ensures var t := "<" + tag + attrText + "/>"; "<" + tag + (attrText + w) + "/>" == t[..|t| - 2] + w + "/>"
  {
    SeqAssociates("<" + tag, attrText, w);
    var t, u := "<" + tag + attrText + ">", "<" + tag + attrText + "/>";
    assert t[..|t| - 1] == "<" + tag + attrText && u[..|u| - 2] == "<" + tag + attrText;
  }

  lemma {:induction false} AttrTextMore(attrs: seq<Attr>, name: string, v: Option<string>)
    ensures AttrText(attrs + [Attr(name, v)])
      == AttrText(attrs) + (" " + name + "=\"" + (if v.Some? then v.value else "None") + "\"")
  {
    var w := " " + name + "=\"" + (if v.Some? then v.value else "None") + "\"";
    if attrs == [] {
      assert attrs + [Attr(name, v)] == [Attr(name, v)] && [Attr(name, v)][1..] == [];
      assert w + "" == w && "" + w == w;
    } else {
      AttrTextMore(attrs[1..], name, v);
      assert (attrs + [Attr(name, v)])[1..] == attrs[1..] + [Attr(name, v)];
      var a := attrs[0];
      var first := " " + a.name + "=\"" + (if a.value.Some? then a.value.value else "None") + "\"";
      SeqAssociates(first, AttrText(attrs[1..]), w);
    }
  }

  // ----- the filter -----

  datatype State = State(
    inBody: bool, inHead: bool, drop: Option<string>, count: int, body: seq<string>, head: seq<string>)

  function Handle(s: State, e: Event): State {
    match e
    case Start(tag, attrs) =>
      if tag == "body" then s.(inBody := true)
      else if tag == "head" then s.(inHead := true)
      else if s.inBody && s.drop.Some? then
        if tag == s.drop.value then s.(count := s.count + 1) else s
      else if s.inBody && ShouldDrop(tag, attrs) then s.(drop := Some(tag), count := 1)
      else Write(s, OpenText(tag, attrs))
    case StartEnd(tag, attrs) =>
      if s.inBody && s.drop.Some? then s
      else if s.inBody then s.(body := s.body + [SelfClosedText(tag, attrs)])
      else if s.inHead then s.(head := s.head + [SelfClosedText(tag, attrs)])
      else s
    case End(tag) =>
      if tag == "body" then s.(inBody := false)
      else if tag == "head" then s.(inHead := false)
      else if s.inBody && s.drop.Some? then
        if tag != s.drop.value then s
        else if s.count == 1 then s.(drop := None, count := 0)
        else s.(count := s.count - 1)
      else Write(s, CloseText(tag))
    case Data(text) =>
      if s.inBody && s.drop.Some? then s else Write(s, text)
  }

  /** Text goes to the body, the head, or both. */
  function Write(s: State, text: string): State {
    s.(body := if s.inBody then s.body + [text] else s.body,
       head := if s.inHead then s.head + [text] else s.head)
  }

  function Run(s: State, es: seq<Event>): State
    decreases |es|
  {
    if es == [] then s else Run(Handle(s, es[0]), es[1..])
  }

  class Extractor {
    var inBody: bool
    var inHead: bool
    var dropTag: Option<string>
    var dropCount: int
    var bodyContent: seq<string>
    var headContent: seq<string>

    function Current(): State
      reads this
    {
      State(inBody, inHead, dropTag, dropCount, bodyContent, headContent)
    }

    constructor ()
      ensures Current() == EMPTY
    {
      inBody, inHead, dropTag, dropCount, bodyContent, headContent := false, false, None, 0, [], [];
    }

    method HandleStartTag(tag: string, attrs: seq<Attr>)
      modifies this
      ensures Current() == Handle(old(Current()), Start(tag, attrs))
    {
      if tag == "body" {
        inBody := true;
        return;
      }
      if tag == "head" {
        inHead := true;
        return;
      }
      if inBody {
        if dropTag.Some? {
          if tag == dropTag.value {
            dropCount := dropCount + 1;
          }
          return;
        }
        if ShouldDrop(tag, attrs) {
          dropTag, dropCount := Some(tag), 1;
          return;
        }
        bodyContent := bodyContent + [OpenText(tag, attrs)];
      }
      if inHead {
        headContent := headContent + [OpenText(tag, attrs)];
      }
    }

    method HandleStartEndTag(tag: string, attrs: seq<Attr>)
      modifies this
      ensures Current() == Handle(old(Current()), StartEnd(tag, attrs))
    {
      if inBody && dropTag.Some? {
        return;
      }
      if inBody {
        bodyContent := bodyContent + [SelfClosedText(tag, attrs)];
      } else if inHead {
        headContent := headContent + [SelfClosedText(tag, attrs)];
      }
    }

    method HandleEndTag(tag: string)
      modifies this
      ensures Current() == Handle(old(Current()), End(tag))
    {
      if tag == "body" {
        inBody := false;
        return;
      }
      if tag == "head" {
        inHead := false;
        return;
      }
      if inBody && dropTag.Some? {
        if tag == dropTag.value {
          dropCount := dropCount - 1;
          if dropCount == 0 {
            dropTag := None;
          }
        }
        return;
      }
      if inBody {
        bodyContent := bodyContent + [CloseText(tag)];
      }
      if inHead {
        headContent := headContent + [CloseText(tag)];
      }
    }

    method HandleData(text: string)
      modifies this
      ensures Current() == Handle(old(Current()), Data(text))
    {
      if inBody && dropTag.Some? {
        return;
      }
      if inBody {
        bodyContent := bodyContent + [text];
      }
      if inHead {
        headContent := headContent + [text];
      }
    }

    method Feed(es: seq<Event>)
      modifies this
      ensures Current() == Run(old(Current()), es)
    {
      for i := 0 to |es|
        invariant Run(Current(), es[i..]) == Run(old(Current()), es)
      {
        assert es[i..][1..] == es[i + 1..];
        match es[i] {
          case Start(tag, attrs) => HandleStartTag(tag, attrs);
          case StartEnd(tag, attrs) => HandleStartEndTag(tag, attrs);
          case End(tag) => HandleEndTag(tag);
          case Data(text) => HandleData(text);
        }
      }
    }
  }

  const EMPTY := State(false, false, None, 0, [], [])

  // ----- the tree -----

  /** An element with its end tag, a void element, one written `<t/>`, or text. */
  datatype Node =
    | Element(tag: string, attrs: seq<Attr>, kids: seq<Node>)
    | Void(tag: string, attrs: seq<Attr>)
    | SelfClosed(tag: string, attrs: seq<Attr>)
    | Text(text: string)

  function Events(n: Node): seq<Event>
    decreases n, 1
  {
    match n
    case Element(tag, attrs, kids) => [Start(tag, attrs)] + AllEvents(kids) + [End(tag)]
    case Void(tag, attrs) => [Start(tag, attrs)]
    case SelfClosed(tag, attrs) => [StartEnd(tag, attrs)]
    case Text(text) => [Data(text)]
  }

  function AllEvents(ns: seq<Node>): seq<Event>
    decreases ns, 0
  {
    if ns == [] then [] else Events(ns[0]) + AllEvents(ns[1..])
  }

  predicate Droppable(n: Node) {
    match n
    case Element(tag, attrs, _) => ShouldDrop(tag, attrs)
    case Void(tag, attrs) => ShouldDrop(tag, attrs)
    case SelfClosed(tag, attrs) => ShouldDrop(tag, attrs)
    case Text(_) => false
  }

  /** The tree without its droppable elements. */
  function Prune(ns: seq<Node>): seq<Node>
    decreases ns, 0
  {
    if ns == [] then [] else PruneOne(ns[0]) + Prune(ns[1..])
  }

  function PruneOne(n: Node): seq<Node>
    decreases n, 1
  {
    if Droppable(n) then []
    else if n.Element? then [Element(n.tag, n.attrs, Prune(n.kids))]
    else [n]
  }

  /** The tree without its droppable containers only: droppable void and self-closed elements stay. */
  function Pass(ns: seq<Node>): seq<Node>
    decreases ns, 0
  {
    if ns == [] then [] else PassOne(ns[0]) + Pass(ns[1..])
  }

  function PassOne(n: Node): seq<Node>
    decreases n, 1
  {
    if !n.Element? then [n]
    else if Droppable(n) then []
    else [Element(n.tag, n.attrs, Pass(n.kids))]
  }

  function Html(n: Node): seq<string>
    decreases n, 1
  {
    match n
    case Element(tag, attrs, kids) => [OpenText(tag, attrs)] + AllHtml(kids) + [CloseText(tag)]
    case Void(tag, attrs) => [OpenText(tag, attrs)]
    case SelfClosed(tag, attrs) => [SelfClosedText(tag, attrs)]
    case Text(text) => [text]
  }

  function AllHtml(ns: seq<Node>): seq<string>
    decreases ns, 0
  {
    if ns == [] then [] else Html(ns[0]) + AllHtml(ns[1..])
  }

  /** Body content: no `body` or `head` tag inside, and a tag name is either a container's or a
      void element's, as HTML has it (`isVoid`). */
  predicate Content(n: Node, isVoid: string -> bool)
    decreases n, 1
  {
    match n
    case Element(tag, _, kids) => tag != "body" && tag != "head" && !isVoid(tag) && AllContent(kids, isVoid)
    case Void(tag, _) => tag != "body" && tag != "head" && isVoid(tag)
    case _ => true
  }

  predicate AllContent(ns: seq<Node>, isVoid: string -> bool)
    decreases ns, 0
  {
    ns == [] || (Content(ns[0], isVoid) && AllContent(ns[1..], isVoid))
  }

  /** No droppable void element, outside droppable containers. */
  predicate NoLiveDropVoid(n: Node)
    decreases n, 1
  {
    match n
    case Element(tag, attrs, kids) => ShouldDrop(tag, attrs) || AllNoLiveDropVoid(kids)
    case Void(tag, attrs) => !ShouldDrop(tag, attrs)
    case _ => true
  }

  predicate AllNoLiveDropVoid(ns: seq<Node>)
    decreases ns, 0
  {
    ns == [] || (NoLiveDropVoid(ns[0]) && AllNoLiveDropVoid(ns[1..]))
  }

  /** How many droppable self-closed elements there are outside droppable containers. */
  function DropSelfClosed(n: Node): nat
    decreases n, 1
  {
    match n
    case Element(tag, attrs, kids) => if ShouldDrop(tag, attrs) then 0 else AllDropSelfClosed(kids)
    case SelfClosed(tag, attrs) => if ShouldDrop(tag, attrs) then 1 else 0
    case _ => 0
  }

  function AllDropSelfClosed(ns: seq<Node>): nat
    decreases ns, 0
  {
    if ns == [] then 0 else DropSelfClosed(ns[0]) + AllDropSelfClosed(ns[1..])
  }

  // ----- runs over trees -----

  lemma {:induction false} RunAppend(s: State, a: seq<Event>, b: seq<Event>)
    ensures Run(s, a + b) == Run(Run(s, a), b)
    decreases |a|
  {
    if a == [] {
      assert a + b == b;
    } else {
      assert (a + b)[0] == a[0] && (a + b)[1..] == a[1..] + b;
      RunAppend(Handle(s, a[0]), a[1..], b);
    }
  }

  lemma RunOne(s: State, e: Event)
    ensures Run(s, [e]) == Handle(s, e)
  {
    assert [e][1..] == [];
  }

  predicate InBody(s: State) {
    s.inBody && !s.inHead
  }

  predicate Dropping(s: State, tag: string) {
    InBody(s) && s.drop == Some(tag)
  }

  /** While an element is being dropped its content changes nothing: nested elements of the same
      name raise the count and lower it again. */
  lemma {:induction false} SkipNode(s: State, tag: string, n: Node, isVoid: string -> bool)
    requires Dropping(s, tag) && s.count >= 1 && !isVoid(tag) && Content(n, isVoid)
    ensures Run(s, Events(n)) == s
    decreases n, 1
  {
    match n {
      case Element(t, attrs, kids) =>
        var s1 := Handle(s, Start(t, attrs));
        SkipNodes(s1, tag, kids, isVoid);
        ElementRun(s, t, attrs, kids);
      case Void(t, attrs) => RunOne(s, Start(t, attrs));
      case SelfClosed(t, attrs) => RunOne(s, StartEnd(t, attrs));
      case Text(text) => RunOne(s, Data(text));
    }
  }

  lemma ElementRun(s: State, tag: string, attrs: seq<Attr>, kids: seq<Node>)
    ensures Run(s, Events(Element(tag, attrs, kids)))
      == Handle(Run(Handle(s, Start(tag, attrs)), AllEvents(kids)), End(tag))
  {
    RunAppend(s, [Start(tag, attrs)] + AllEvents(kids), [End(tag)]);
    RunAppend(s, [Start(tag, attrs)], AllEvents(kids));
    RunOne(s, Start(tag, attrs));
    RunOne(Run(Handle(s, Start(tag, attrs)), AllEvents(kids)), End(tag));
  }

  lemma {:induction false} SkipNodes(s: State, tag: string, ns: seq<Node>, isVoid: string -> bool)
    requires Dropping(s, tag) && s.count >= 1 && !isVoid(tag) && AllContent(ns, isVoid)
    ensures Run(s, AllEvents(ns)) == s
    decreases ns, 0
  {
    if ns != [] {
      SkipNode(s, tag, ns[0], isVoid);
      SkipNodes(s, tag, ns[1..], isVoid);
      RunAppend(s, Events(ns[0]), AllEvents(ns[1..]));
    }
  }

  /** Outside a dropped element the filter writes the tree without its droppable containers. */
  lemma {:induction false} KeepNode(s: State, n: Node, isVoid: string -> bool)
    requires InBody(s) && s.drop.None? && s.count == 0 && Content(n, isVoid) && NoLiveDropVoid(n)
    ensures Run(s, Events(n)) == s.(body := s.body + AllHtml(PassOne(n)))
    decreases n, 1
  {
    match n {
      case Element(t, attrs, kids) =>
        var s1 := Handle(s, Start(t, attrs));
        ElementRun(s, t, attrs, kids);
        if ShouldDrop(t, attrs) {
          SkipNodes(s1, t, kids, isVoid);
          assert s.body + [] == s.body;
        } else {
          KeepNodes(s1, kids, isVoid);
          OneNode(Element(t, attrs, Pass(kids)));
          SeqAssociates(s.body, [OpenText(t, attrs)], AllHtml(Pass(kids)));
          SeqAssociates(s.body, [OpenText(t, attrs)] + AllHtml(Pass(kids)), [CloseText(t)]);
        }
      case Void(t, attrs) =>
        RunOne(s, Start(t, attrs));
        OneNode(n);
      case SelfClosed(t, attrs) =>
        RunOne(s, StartEnd(t, attrs));
        OneNode(n);
      case Text(text) =>
        RunOne(s, Data(text));
        OneNode(n);
    }
  }

  lemma OneNode(n: Node)
    ensures AllHtml([n]) == Html(n)
  {
    assert [n][1..] == [] && Html(n) + [] == Html(n);
  }

  lemma {:induction false} HtmlAppend(a: seq<Node>, b: seq<Node>)
    ensures AllHtml(a + b) == AllHtml(a) + AllHtml(b)
  {
    if a == [] {
      assert a + b == b;
    } else {
      HtmlAppend(a[1..], b);
      assert (a + b)[1..] == a[1..] + b;
      SeqAssociates(Html(a[0]), AllHtml(a[1..]), AllHtml(b));
    }
  }

  lemma {:induction false} KeepNodes(s: State, ns: seq<Node>, isVoid: string -> bool)
    requires InBody(s) && s.drop.None? && s.count == 0 && AllContent(ns, isVoid) && AllNoLiveDropVoid(ns)
    ensures Run(s, AllEvents(ns)) == s.(body := s.body + AllHtml(Pass(ns)))
    decreases ns, 0
  {
    if ns == [] {
      assert s.body + [] == s.body;
    } else {
      var s1 := s.(body := s.body + AllHtml(PassOne(ns[0])));
      KeepNode(s, ns[0], isVoid);
      KeepNodes(s1, ns[1..], isVoid);
      RunAppend(s, Events(ns[0]), AllEvents(ns[1..]));
      HtmlAppend(PassOne(ns[0]), Pass(ns[1..]));
      SeqAssociates(s.body, AllHtml(PassOne(ns[0])), AllHtml(Pass(ns[1..])));
    }
  }

  // ----- a droppable void element never ends -----

  /** Dropping a void name: no end tag of that name follows, so the drop goes on to the end. */
  predicate Stuck(s: State, isVoid: string -> bool) {
    InBody(s) && s.drop.Some? && isVoid(s.drop.value) && s.count >= 1
  }

  lemma {:induction false} StuckNode(s: State, n: Node, isVoid: string -> bool)
    requires Stuck(s, isVoid) && Content(n, isVoid)
    ensures Stuck(Run(s, Events(n)), isVoid) && Run(s, Events(n)).body == s.body
    decreases n, 1
  {
    match n {
      case Element(t, attrs, kids) =>
        StuckNodes(Handle(s, Start(t, attrs)), kids, isVoid);
        ElementRun(s, t, attrs, kids);
      case Void(t, attrs) => RunOne(s, Start(t, attrs));
      case SelfClosed(t, attrs) => RunOne(s, StartEnd(t, attrs));
      case Text(text) => RunOne(s, Data(text));
    }
  }

  lemma {:induction false} StuckNodes(s: State, ns: seq<Node>, isVoid: string -> bool)
    requires Stuck(s, isVoid) && AllContent(ns, isVoid)
    ensures Stuck(Run(s, AllEvents(ns)), isVoid) && Run(s, AllEvents(ns)).body == s.body
    decreases ns, 0
  {
    if ns != [] {
      StuckNode(s, ns[0], isVoid);
      StuckNodes(Run(s, Events(ns[0])), ns[1..], isVoid);
      RunAppend(s, Events(ns[0]), AllEvents(ns[1..]));
    }
  }

  /** What is written up to the first kept void element that is droppable. */
  function Before(n: Node): seq<string>
    decreases n, 1
  {
    match n
    case Element(tag, attrs, kids) => [OpenText(tag, attrs)] + AllBefore(kids)
    case _ => []
  }

  function AllBefore(ns: seq<Node>): seq<string>
    decreases ns, 0
  {
    if ns == [] then []
    else if NoLiveDropVoid(ns[0]) then AllHtml(PassOne(ns[0])) + AllBefore(ns[1..])
    else Before(ns[0])
  }

  lemma {:induction false} GetsStuck(s: State, n: Node, isVoid: string -> bool)
    requires InBody(s) && s.drop.None? && s.count == 0 && Content(n, isVoid) && !NoLiveDropVoid(n)
    ensures Stuck(Run(s, Events(n)), isVoid) && Run(s, Events(n)).body == s.body + Before(n)
    decreases n, 1
  {
    match n {
      case Element(t, attrs, kids) =>
        AllGetStuck(Handle(s, Start(t, attrs)), kids, isVoid);
        ElementRun(s, t, attrs, kids);
        SeqAssociates(s.body, [OpenText(t, attrs)], AllBefore(kids));
      case Void(t, attrs) =>
        RunOne(s, Start(t, attrs));
        assert s.body + [] == s.body;
    }
  }

  lemma {:induction false} AllGetStuck(s: State, ns: seq<Node>, isVoid: string -> bool)
    requires InBody(s) && s.drop.None? && s.count == 0 && AllContent(ns, isVoid) && !AllNoLiveDropVoid(ns)
    ensures Stuck(Run(s, AllEvents(ns)), isVoid) && Run(s, AllEvents(ns)).body == s.body + AllBefore(ns)
    decreases ns, 0
  {
    RunAppend(s, Events(ns[0]), AllEvents(ns[1..]));
    if NoLiveDropVoid(ns[0]) {
      KeepNode(s, ns[0], isVoid);
      AllGetStuck(Run(s, Events(ns[0])), ns[1..], isVoid);
      SeqAssociates(s.body, AllHtml(PassOne(ns[0])), AllBefore(ns[1..]));
    } else {
      GetsStuck(s, ns[0], isVoid);
      StuckNodes(Run(s, Events(ns[0])), ns[1..], isVoid);
    }
  }

  /** That is a proper beginning of the tree without its droppable containers. */
  lemma {:induction false} BeforeIsLess(n: Node)
    requires !NoLiveDropVoid(n)
    ensures Before(n) < AllHtml(PassOne(n))
    decreases n, 1
  {
    match n {
      case Element(t, attrs, kids) =>
        AllBeforeIsLess(kids);
        OneNode(Element(t, attrs, Pass(kids)));
        PrefixUnder([OpenText(t, attrs)], AllBefore(kids), AllHtml(Pass(kids)), [CloseText(t)]);
      case Void(t, attrs) =>
        OneNode(n);
    }
  }

  lemma {:induction false} AllBeforeIsLess(ns: seq<Node>)
    requires !AllNoLiveDropVoid(ns)
    ensures AllBefore(ns) < AllHtml(Pass(ns))
    decreases ns, 0
  {
    var first, more := AllHtml(PassOne(ns[0])), AllHtml(Pass(ns[1..]));
    HtmlAppend(PassOne(ns[0]), Pass(ns[1..]));
    if NoLiveDropVoid(ns[0]) {
      AllBeforeIsLess(ns[1..]);
      PrefixUnder(first, AllBefore(ns[1..]), more, []);
      assert first + more + [] == first + more;
    } else {
      BeforeIsLess(ns[0]);
    }
  }

  lemma PrefixUnder(a: seq<string>, b: seq<string>, c: seq<string>, d: seq<string>)
    requires b < c
    ensures a + b < a + c + d
  {
    assert c == b + c[|b|..];
  }

  // ----- what passes and what should -----

  lemma {:induction false} Surplus(n: Node)
    requires NoLiveDropVoid(n)
    ensures |AllHtml(PassOne(n))| == |AllHtml(PruneOne(n))| + DropSelfClosed(n)
    ensures DropSelfClosed(n) == 0 ==> PassOne(n) == PruneOne(n)
    decreases n, 1
  {
    match n {
      case Element(t, attrs, kids) =>
        if !ShouldDrop(t, attrs) {
          AllSurplus(kids);
          OneNode(Element(t, attrs, Pass(kids)));
          OneNode(Element(t, attrs, Prune(kids)));
        }
      case _ =>
        OneNode(n);
    }
  }

  /** Without live droppable void elements, what passes is longer than the pruned tree by its
      droppable self-closed elements. */
  lemma {:induction false} AllSurplus(ns: seq<Node>)
    requires AllNoLiveDropVoid(ns)
    ensures |AllHtml(Pass(ns))| == |AllHtml(Prune(ns))| + AllDropSelfClosed(ns)
    ensures AllDropSelfClosed(ns) == 0 ==> Pass(ns) == Prune(ns)
    decreases ns, 0
  {
    if ns != [] {
      Surplus(ns[0]);
      AllSurplus(ns[1..]);
      HtmlAppend(PassOne(ns[0]), Pass(ns[1..]));
      HtmlAppend(PruneOne(ns[0]), Prune(ns[1..]));
    }
  }

  lemma {:induction false} PruneAppend(a: seq<Node>, b: seq<Node>)
    ensures Prune(a + b) == Prune(a) + Prune(b)
  {
    if a == [] {
      assert a + b == b;
    } else {
      PruneAppend(a[1..], b);
      assert (a + b)[1..] == a[1..] + b;
      SeqAssociates(PruneOne(a[0]), Prune(a[1..]), Prune(b));
    }
  }

  lemma {:induction false} PrunePassed(n: Node)
    ensures Prune(PassOne(n)) == PruneOne(n)
    decreases n, 1
  {
    if n.Element? {
      AllPrunePassed(n.kids);
      if !Droppable(n) { PruneSingle(Element(n.tag, n.attrs, Pass(n.kids))); }
    } else {
      PruneSingle(n);
    }
  }

  lemma PruneSingle(n: Node)
    ensures Prune([n]) == PruneOne(n)
  {
    assert [n][1..] == [] && PruneOne(n) + [] == PruneOne(n);
  }

  /** Nothing else is in the way: removing the droppable elements from what passes gives the pruned tree. */
  lemma {:induction false} AllPrunePassed(ns: seq<Node>)
    ensures Prune(Pass(ns)) == Prune(ns)
    decreases ns, 0
  {
    if ns != [] {
      PrunePassed(ns[0]);
      AllPrunePassed(ns[1..]);
      PruneAppend(PassOne(ns[0]), Pass(ns[1..]));
    }
  }

  // ----- a page -----

  predicate NoBodyStart(es: seq<Event>) {
    forall e :: e in es ==> !(e.Start? && e.tag == "body")
  }

  /** Is a head open after the events? */
  function HeadOpen(open: bool, es: seq<Event>): bool
    decreases |es|
  {
    if es == [] then open
    else
      var e := es[0];
      HeadOpen(if e.Start? && e.tag == "head" then true else if e.End? && e.tag == "head" then false else open, es[1..])
  }

  /** Outside the body nothing is written to it and nothing is dropped. */
  lemma {:induction false} OutsideBody(s: State, es: seq<Event>)
    requires !s.inBody && NoBodyStart(es)
    ensures var t := Run(s, es);
      !t.inBody && t.body == s.body && t.drop == s.drop && t.count == s.count && t.inHead == HeadOpen(s.inHead, es)
    decreases |es|
  {
    if es != [] {
      assert es[0] in es && forall e :: e in es[1..] ==> e in es;
      OutsideBody(Handle(s, es[0]), es[1..]);
    }
  }

  function PageEvents(before: seq<Event>, attrs: seq<Attr>, ns: seq<Node>, behind: seq<Event>): seq<Event> {
    before + ([Start("body", attrs)] + (AllEvents(ns) + ([End("body")] + behind)))
  }

  /** The page: any events before with the head closed again, the body, any events behind it. */
  predicate IsPage(before: seq<Event>, ns: seq<Node>, behind: seq<Event>, isVoid: string -> bool) {
    NoBodyStart(before) && !HeadOpen(false, before) && NoBodyStart(behind) && AllContent(ns, isVoid)
  }

  /** What the extractor of a page ends with. */
  function PageRun(before: seq<Event>, attrs: seq<Attr>, ns: seq<Node>, behind: seq<Event>): State {
    Run(EMPTY, PageEvents(before, attrs, ns, behind))
  }

  lemma PageSteps(before: seq<Event>, attrs: seq<Attr>, ns: seq<Node>, behind: seq<Event>, isVoid: string -> bool)
      returns (s: State)
    requires IsPage(before, ns, behind, isVoid)
    ensures InBody(s) && s.drop.None? && s.count == 0 && s.body == []
    ensures var t := PageRun(before, attrs, ns, behind);
      t.body == Run(s, AllEvents(ns)).body && t.drop == Run(s, AllEvents(ns)).drop
  {
    hide Run, AllEvents;
    var s0 := Run(EMPTY, before);
    OutsideBody(EMPTY, before);
    s := Handle(s0, Start("body", attrs));
    var t := Run(s, AllEvents(ns));
    RunAppend(EMPTY, before, [Start("body", attrs)] + (AllEvents(ns) + ([End("body")] + behind)));
    RunAppend(s0, [Start("body", attrs)], AllEvents(ns) + ([End("body")] + behind));
    RunOne(s0, Start("body", attrs));
    RunAppend(s, AllEvents(ns), [End("body")] + behind);
    RunAppend(t, [End("body")], behind);
    RunOne(t, End("body"));
    OutsideBody(Handle(t, End("body")), behind);
  }

  /** On every page with a well-nested body the filter ends with nothing being dropped and with exactly
      the pruned tree written if and only if no droppable void element and no droppable self-closed one
      stands outside droppable containers. Self-closed ones alone are written on top of it. */
  lemma FilterIsPruning(before: seq<Event>, attrs: seq<Attr>, ns: seq<Node>, behind: seq<Event>, isVoid: string -> bool)
    requires IsPage(before, ns, behind, isVoid)
    ensures var t := PageRun(before, attrs, ns, behind);
      && (t.drop.None? <==> AllNoLiveDropVoid(ns))
      && (t.drop.None? && t.body == AllHtml(Prune(ns)) <==> AllNoLiveDropVoid(ns) && AllDropSelfClosed(ns) == 0)
      && (AllNoLiveDropVoid(ns) ==>
            t.body == AllHtml(Pass(ns)) && |t.body| == |AllHtml(Prune(ns))| + AllDropSelfClosed(ns))
  {
    var s := PageSteps(before, attrs, ns, behind, isVoid);
    if AllNoLiveDropVoid(ns) {
      KeepNodes(s, ns, isVoid);
      AllSurplus(ns);
      assert [] + AllHtml(Pass(ns)) == AllHtml(Pass(ns));
    } else {
      AllGetStuck(s, ns, isVoid);
    }
  }

  /** The first droppable void element outside droppable containers swallows everything after it in the
      body, closing tags included: what is written stops there. */
  lemma DroppableVoidSwallows(before: seq<Event>, attrs: seq<Attr>, ns: seq<Node>, behind: seq<Event>,
                              isVoid: string -> bool)
    requires IsPage(before, ns, behind, isVoid) && !AllNoLiveDropVoid(ns)
    ensures var t := PageRun(before, attrs, ns, behind);
      t.drop.Some? && t.body == AllBefore(ns) && AllBefore(ns) < AllHtml(Pass(ns))
  {
    var s := PageSteps(before, attrs, ns, behind, isVoid);
    AllGetStuck(s, ns, isVoid);
    AllBeforeIsLess(ns);
    assert [] + AllBefore(ns) == AllBefore(ns);
  }

  // ----- the head -----

  /** Neither a start nor an end tag of the body or the head. */
  predicate Outer(e: Event) {
    e.Start? || e.End? ==> e.tag != "body" && e.tag != "head"
  }

  lemma {:induction false} BeforeHead(es: seq<Event>)
    requires forall e :: e in es ==> Outer(e)
    ensures Run(EMPTY, es) == EMPTY
  {
    if es != [] {
      assert es[0] in es && forall e :: e in es[1..] ==> e in es;
      BeforeHead(es[1..]);
    }
  }

  lemma {:induction false} HeadNode(s: State, n: Node, isVoid: string -> bool)
    requires !s.inBody && s.inHead && Content(n, isVoid)
    ensures Run(s, Events(n)) == s.(head := s.head + Html(n))
    decreases n, 1
  {
    match n
    case Element(tag, attrs, kids) =>
      var s1 := s.(head := s.head + [OpenText(tag, attrs)]);
      var s2 := s1.(head := s1.head + AllHtml(kids));
      HeadNodes(s1, kids, isVoid);
      RunAppend(s, [Start(tag, attrs)] + AllEvents(kids), [End(tag)]);
      RunAppend(s, [Start(tag, attrs)], AllEvents(kids));
      RunOne(s, Start(tag, attrs));
      RunOne(s2, End(tag));
      SeqAssociates(s.head, [OpenText(tag, attrs)], AllHtml(kids));
      SeqAssociates(s.head, [OpenText(tag, attrs)] + AllHtml(kids), [CloseText(tag)]);
    case Void(tag, attrs) => RunOne(s, Start(tag, attrs));
    case SelfClosed(tag, attrs) => RunOne(s, StartEnd(tag, attrs));
    case Text(text) => RunOne(s, Data(text));
  }

  lemma {:induction false} HeadNodes(s: State, ns: seq<Node>, isVoid: string -> bool)
    requires !s.inBody && s.inHead && AllContent(ns, isVoid)
    ensures Run(s, AllEvents(ns)) == s.(head := s.head + AllHtml(ns))
    decreases ns, 0
  {
    if ns == [] {
      assert s.head + [] == s.head;
    } else {
      var s1 := s.(head := s.head + Html(ns[0]));
      HeadNode(s, ns[0], isVoid);
      HeadNodes(s1, ns[1..], isVoid);
      RunAppend(s, Events(ns[0]), AllEvents(ns[1..]));
      SeqAssociates(s.head, Html(ns[0]), AllHtml(ns[1..]));
    }
  }

  lemma {:induction false} AfterHead(s: State, es: seq<Event>)
    requires !s.inHead && forall e :: e in es ==> !(e.Start? && e.tag == "head")
    ensures Run(s, es).head == s.head
    decreases |es|
  {
    if es != [] {
      assert es[0] in es && forall e :: e in es[1..] ==> e in es;
      AfterHead(Handle(s, es[0]), es[1..]);
    }
  }

  /** The head of a page is copied as it is: nothing is dropped there, and nothing from elsewhere enters. */
  lemma HeadIsCopied(before: seq<Event>, attrs: seq<Attr>, ns: seq<Node>, behind: seq<Event>, isVoid: string -> bool)
    requires (forall e :: e in before ==> Outer(e)) && AllContent(ns, isVoid)
    requires forall e :: e in behind ==> !(e.Start? && e.tag == "head")
    ensures Run(EMPTY, before + ([Start("head", attrs)] + (AllEvents(ns) + ([End("head")] + behind)))).head
      == AllHtml(ns)
  {
    hide Run, AllEvents;
    BeforeHead(before);
    var s := Handle(EMPTY, Start("head", attrs));
    RunAppend(EMPTY, before, [Start("head", attrs)] + (AllEvents(ns) + ([End("head")] + behind)));
    RunAppend(EMPTY, [Start("head", attrs)], AllEvents(ns) + ([End("head")] + behind));
    RunOne(EMPTY, Start("head", attrs));
    RunAppend(s, AllEvents(ns), [End("head")] + behind);
    HeadNodes(s, ns, isVoid);
    var t := Run(s, AllEvents(ns));
    RunAppend(t, [End("head")], behind);
    RunOne(t, End("head"));
    AfterHead(Handle(t, End("head")), behind);
    assert [] + AllHtml(ns) == AllHtml(ns);
  }

  /** A self-closed `script` is droppable and is written all the same. */
  lemma SelfClosedScriptStays()
    ensures var ns := [SelfClosed("script", [])];
      && Prune(ns) == []
      && PageRun([], [], ns, []).drop.None? && PageRun([], [], ns, []).body == ["<script/>"]
  {
    var ns := [SelfClosed("script", [])];
    assert IsPage([], ns, [], (tag: string) => false);
    FilterIsPruning([], [], ns, [], (tag: string) => false);
    assert ns[1..] == [];
    OneNode(ns[0]);
    assert "<" + "script" + "" + "/>" == "<script/>";
  }

  // ----- the use of the extractor -----

  /** The pieces of a page's body. */
  method ExtractBody(es: seq<Event>) returns (content: seq<string>)
    ensures content == Run(EMPTY, es).body
  {
    var parser := new Extractor();
    parser.Feed(es);
    content := parser.bodyContent;
  }
}
