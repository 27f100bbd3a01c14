/** Heading renumbering: the stack pass of `_renumber_headings` over the heading tags of a
    page, against the outline it is meant to give. */
module HeadingOutline {
  import opened Prelude

  /** The heading tags in page order, with the level digit each carries. */
  datatype Tag = Open(level: nat) | Close(level: nat)

  // ----- the pass -----

  /** Ancestors at the new heading's level or deeper are closed. */
  function PopTo(ctx: seq<nat>, lvl: nat): (c: seq<nat>)
    ensures |c| <= |ctx|
  {
    if ctx == [] || ctx[|ctx| - 1] < lvl then ctx else PopTo(ctx[..|ctx| - 1], lvl)
  }

  function Push(ctx: seq<nat>, lvl: nat): seq<nat> {
    PopTo(ctx, lvl) + [lvl]
  }

  /** `ctx` holds the original levels of the open ancestors, `open` the assigned levels of the open tags. */
  function RewriteOne(ctx: seq<nat>, open: seq<nat>, tag: Tag): (Tag, seq<nat>, seq<nat>) {
    match tag
    case Open(lvl) =>
      var c := Push(ctx, lvl);
      (Open(|c|), c, open + [|c|])
    case Close(lvl) =>
      if open == [] then (Close(lvl), ctx, open)
      else (Close(open[|open| - 1]), ctx, open[..|open| - 1])
  }

  function Rewrite(ctx: seq<nat>, open: seq<nat>, tags: seq<Tag>): seq<Tag>
    decreases |tags|
  {
    if tags == [] then []
    else
      var (t, c, o) := RewriteOne(ctx, open, tags[0]);
      [t] + Rewrite(c, o, tags[1..])
  }

  method RenumberHeadings(tags: seq<Tag>) returns (out: seq<Tag>)
    ensures out == Rewrite([], [], tags)
  {
    var ctx: seq<nat>, openAssigned: seq<nat> := [], [];
    out := [];
    for i := 0 to |tags|
      invariant out + Rewrite(ctx, openAssigned, tags[i..]) == Rewrite([], [], tags)
    {
      ghost var (t, c, o) := RewriteOne(ctx, openAssigned, tags[i]);
      assert tags[i..][1..] == tags[i + 1..];
      SeqAssociates(out, [t], Rewrite(c, o, tags[i + 1..]));
      match tags[i] {
        case Close(lvl) =>
          var a := lvl;
          if openAssigned != [] {
            a := openAssigned[|openAssigned| - 1];
            openAssigned := openAssigned[..|openAssigned| - 1];
          }
          out := out + [Close(a)];
        case Open(lvl) =>
          ghost var ctx0 := ctx;
          while ctx != [] && ctx[|ctx| - 1] >= lvl
            invariant PopTo(ctx, lvl) == PopTo(ctx0, lvl)
            decreases |ctx|
          {
            ctx := ctx[..|ctx| - 1];
          }
          ctx := ctx + [lvl];
          openAssigned := openAssigned + [|ctx|];
          out := out + [Open(|ctx|)];
      }
    }
    assert tags[|tags|..] == [] && out + [] == out;
  }

  // ----- the levels alone -----

  /** The levels assigned to a run of opening tags. */
  function Assigned(ctx: seq<nat>, levels: seq<nat>): (a: seq<nat>)
    ensures |a| == |levels|
    decreases |levels|
  {
    if levels == [] then []
    else
      var c := Push(ctx, levels[0]);
      [|c|] + Assigned(c, levels[1..])
  }

  function Opens(tags: seq<Tag>): seq<nat> {
    if tags == [] then []
    else (if tags[0].Open? then [tags[0].level] else []) + Opens(tags[1..])
  }

  /** However the closing tags fall, the opening tags get the assigned levels in order. */
  lemma {:induction false} OpensAssigned(ctx: seq<nat>, open: seq<nat>, tags: seq<Tag>)
    ensures Opens(Rewrite(ctx, open, tags)) == Assigned(ctx, Opens(tags))
    decreases |tags|
  {
    hide Push, Assigned;
    if tags == [] {
      AssignedNothing(ctx);
    } else {
      var (t, c, o) := RewriteOne(ctx, open, tags[0]);
      OpensAssigned(c, o, tags[1..]);
      assert ([t] + Rewrite(c, o, tags[1..]))[1..] == Rewrite(c, o, tags[1..]);
      if tags[0].Open? {
        assert Opens(tags)[0] == tags[0].level && Opens(tags)[1..] == Opens(tags[1..]);
        AssignedOnce(ctx, Opens(tags));
      } else {
        assert [] + Opens(tags[1..]) == Opens(tags[1..]);
        assert [] + Opens(Rewrite(c, o, tags[1..])) == Opens(Rewrite(c, o, tags[1..]));
      }
    }
  }

  lemma AssignedNothing(ctx: seq<nat>)
    ensures Assigned(ctx, []) == []
  {
  }

  /** The nearest position before `k` with a smaller level than `lvl`, or -1. */
  function Nearest(levels: seq<nat>, k: nat, lvl: nat): (p: int)
    requires k <= |levels|
    ensures -1 <= p < k
    ensures p >= 0 ==> levels[p] < lvl
    ensures forall j :: p < j < k ==> levels[j] >= lvl
  {
    if k == 0 then -1 else if levels[k - 1] < lvl then k - 1 else Nearest(levels, k - 1, lvl)
  }

  /** The nearest earlier heading with a strictly smaller level: the parent in the outline. */
  function Parent(levels: seq<nat>, i: nat): (p: int)
    requires i < |levels|
    ensures -1 <= p < i
  {
    Nearest(levels, i, levels[i])
  }

  /** One more than the parent's, 1 without a parent. */
  function Depth(levels: seq<nat>, i: nat): (d: nat)
    requires i < |levels|
    ensures d >= 1
    decreases i
  {
    var p := Parent(levels, i);
    if p < 0 then 1 else 1 + Depth(levels, p)
  }

  /** The levels on the way from the outermost ancestor down to heading `i`. */
  function Chain(levels: seq<nat>, i: nat): (c: seq<nat>)
    requires i < |levels|
    ensures |c| == Depth(levels, i) && c[|c| - 1] == levels[i]
    decreases i
  {
    var p := Parent(levels, i);
    (if p < 0 then [] else Chain(levels, p)) + [levels[i]]
  }

  function ChainOrNone(levels: seq<nat>, p: int): seq<nat>
    requires -1 <= p < |levels|
  {
    if p < 0 then [] else Chain(levels, p)
  }

  lemma {:induction false} NearestUnique(levels: seq<nat>, k: nat, lvl: nat, p: int)
    requires k <= |levels| && -1 <= p < k && (p >= 0 ==> levels[p] < lvl)
    requires forall j :: p < j < k ==> levels[j] >= lvl
    ensures Nearest(levels, k, lvl) == p
  {
  }

  lemma PopLast(front: seq<nat>, x: nat, lvl: nat)
    ensures PopTo(front + [x], lvl) == if x < lvl then front + [x] else PopTo(front, lvl)
  {
    assert (front + [x])[..|front|] == front;
  }

  lemma ChainLast(levels: seq<nat>, j: nat)
    requires j < |levels|
    ensures Chain(levels, j) == ChainOrNone(levels, Parent(levels, j)) + [levels[j]]
  {
  }

  /** Popping the chain of heading `j` stops at the nearest smaller level before `j + 1`. */
  lemma {:induction false} PopChain(levels: seq<nat>, j: nat, lvl: nat)
    requires j < |levels|
    ensures PopTo(Chain(levels, j), lvl) == ChainOrNone(levels, Nearest(levels, j + 1, lvl))
    decreases j
  {
    hide PopTo, Chain, Depth, Nearest;
    var p := Parent(levels, j);
    ChainLast(levels, j);
    PopLast(ChainOrNone(levels, p), levels[j], lvl);
    if levels[j] < lvl {
      NearestUnique(levels, j + 1, lvl, j);
    } else {
      if p >= 0 { PopChain(levels, p, lvl); } else { PopNone(lvl); }
      var q := Nearest(levels, p + 1, lvl);
      forall x | q < x < j + 1 ensures levels[x] >= lvl {
        if x > p && x < j { assert levels[x] >= levels[j]; }
      }
      NearestUnique(levels, j + 1, lvl, q);
    }
  }

  lemma PopNone(lvl: nat)
    ensures PopTo([], lvl) == []
  {
  }

  lemma PushedChain(levels: seq<nat>, k: nat)
    requires k < |levels|
    ensures Push(if k == 0 then [] else Chain(levels, k - 1), levels[k]) == Chain(levels, k)
  {
    hide PopTo, Chain;
    ChainLast(levels, k);
    if k == 0 { PopNone(levels[0]); } else { PopChain(levels, k - 1, levels[k]); }
  }

  lemma AssignedOnce(ctx: seq<nat>, levels: seq<nat>)
    requires levels != []
    ensures var c := Push(ctx, levels[0]); Assigned(ctx, levels) == [|c|] + Assigned(c, levels[1..])
  {
  }

  /** The pass assigns every heading one more than its parent in the outline. */
  lemma {:induction false} AssignedIsDepth(levels: seq<nat>, k: nat, i: nat)
    requires k <= i < |levels|
    ensures Assigned(if k == 0 then [] else Chain(levels, k - 1), levels[k..])[i - k] == Depth(levels, i)
    decreases |levels| - k
  {
    hide Assigned, Push, Chain, Depth;
    PushedChain(levels, k);
    AssignedOnce(if k == 0 then [] else Chain(levels, k - 1), levels[k..]);
    assert levels[k..][0] == levels[k] && levels[k..][1..] == levels[k + 1..];
    if i > k { AssignedIsDepth(levels, k + 1, i); }
  }

  /** The renumbered levels of a page. */
  function Renumbered(levels: seq<nat>): (a: seq<nat>)
    ensures |a| == |levels|
  {
    Assigned([], levels)
  }

  lemma RenumberedIsDepth(levels: seq<nat>, i: nat)
    requires i < |levels|
    ensures Renumbered(levels)[i] == Depth(levels, i)
  {
    assert levels[0..] == levels;
    AssignedIsDepth(levels, 0, i);
  }

  predicate Positive(levels: seq<nat>) {
    forall i :: 0 <= i < |levels| ==> levels[i] >= 1
  }

  /** The same headings are parents of the same headings. */
  predicate SameOutline(a: seq<nat>, b: seq<nat>) {
    |a| == |b| && forall i :: 0 <= i < |a| ==> Parent(a, i) == Parent(b, i)
  }

  /** Between a heading and its parent, everything is at least as deep. */
  lemma {:induction false} DeepBetween(levels: seq<nat>, p: int, j: nat, d: nat)
    requires -1 <= p < j < |levels|
    requires forall x :: p < x <= j ==> p < 0 || levels[p] < levels[x]
    requires d == if p < 0 then 1 else 1 + Depth(levels, p)
    ensures Depth(levels, j) >= d
    decreases j
  {
    var q := Parent(levels, j);
    if q > p { DeepBetween(levels, p, q, d); }
  }

  /** Renumbering does not change who is whose ancestor. */
  lemma OutlineKept(levels: seq<nat>)
    ensures SameOutline(Renumbered(levels), levels)
  {
    var a := Renumbered(levels);
    forall i | 0 <= i < |a| ensures Parent(a, i) == Parent(levels, i) {
      var p := Parent(levels, i);
      RenumberedIsDepth(levels, i);
      if p >= 0 { RenumberedIsDepth(levels, p); }
      forall j | p < j < i ensures a[j] >= a[i] {
        RenumberedIsDepth(levels, j);
        DeepBetween(levels, p, j, a[i]);
      }
      NearestUnique(a, i, a[i], p);
    }
  }

  lemma {:induction false} OutlineGivesDepth(a: seq<nat>, b: seq<nat>, i: nat)
    requires SameOutline(a, b) && i < |a|
    ensures Depth(a, i) == Depth(b, i)
    decreases i
  {
    if Parent(a, i) >= 0 { OutlineGivesDepth(a, b, Parent(a, i)); }
  }

  /** Renumbering twice is renumbering once. */
  lemma Idempotent(levels: seq<nat>)
    ensures Renumbered(Renumbered(levels)) == Renumbered(levels)
  {
    var a := Renumbered(levels);
    OutlineKept(levels);
    forall i | 0 <= i < |a| ensures Renumbered(a)[i] == a[i] {
      RenumberedIsDepth(a, i);
      RenumberedIsDepth(levels, i);
      OutlineGivesDepth(a, levels, i);
    }
  }

  lemma {:induction false} DepthIsLeast(levels: seq<nat>, x: seq<nat>, i: nat)
    requires Positive(x) && SameOutline(x, levels) && i < |levels|
    ensures Depth(levels, i) <= x[i]
    decreases i
  {
    var p := Parent(levels, i);
    if p >= 0 {
      DepthIsLeast(levels, x, p);
      assert x[Parent(x, i)] < x[i];
    }
  }

  /** Among all positive levellings with the same outline the renumbered one is pointwise least;
      in particular no level grows. */
  lemma Least(levels: seq<nat>, x: seq<nat>, i: nat)
    requires Positive(x) && SameOutline(x, levels) && i < |levels|
    ensures Renumbered(levels)[i] <= x[i]
  {
    RenumberedIsDepth(levels, i);
    DepthIsLeast(levels, x, i);
  }

  /** The outline starts at level 1 and never skips a level going down. */
  lemma NoSkips(levels: seq<nat>, i: nat)
    requires i < |levels|
    ensures var a := Renumbered(levels); a[0] == 1 && (i > 0 ==> a[i] <= a[i - 1] + 1)
  {
    RenumberedIsDepth(levels, 0);
    RenumberedIsDepth(levels, i);
    if i > 0 {
      RenumberedIsDepth(levels, i - 1);
      var p := Parent(levels, i);
      if p >= 0 && p < i - 1 {
        assert forall x :: p < x <= i - 1 ==> levels[p] < levels[x];
        DeepBetween(levels, p, i - 1, 1 + Depth(levels, p));
      }
    }
  }

  // ----- properly nested tags -----

  datatype Heading = Heading(level: nat, inner: seq<Heading>)

  function Emit(h: Heading): seq<Tag>
    decreases h, 1
  {
    [Open(h.level)] + EmitAll(h.inner) + [Close(h.level)]
  }

  function EmitAll(hs: seq<Heading>): seq<Tag>
    decreases hs, 0
  {
    if hs == [] then [] else Emit(hs[0]) + EmitAll(hs[1..])
  }

  function Preorder(h: Heading): seq<nat>
    decreases h, 1
  {
    [h.level] + PreorderAll(h.inner)
  }

  function PreorderAll(hs: seq<Heading>): seq<nat>
    decreases hs, 0
  {
    if hs == [] then [] else Preorder(hs[0]) + PreorderAll(hs[1..])
  }

  /** The elements with the levels the pass assigns, and the ancestors open afterwards. */
  function Relabel(ctx: seq<nat>, h: Heading): (Heading, seq<nat>)
    decreases h, 1
  {
    var c := Push(ctx, h.level);
    var (inner, after) := RelabelAll(c, h.inner);
    (Heading(|c|, inner), after)
  }

  function RelabelAll(ctx: seq<nat>, hs: seq<Heading>): (seq<Heading>, seq<nat>)
    decreases hs, 0
  {
    if hs == [] then ([], ctx)
    else
      var (h, c) := Relabel(ctx, hs[0]);
      var (more, after) := RelabelAll(c, hs[1..]);
      ([h] + more, after)
  }

  lemma {:induction false} ElementRewritten(ctx: seq<nat>, open: seq<nat>, h: Heading, rest: seq<Tag>)
    ensures var (g, after) := Relabel(ctx, h);
      Rewrite(ctx, open, Emit(h) + rest) == Emit(g) + Rewrite(after, open, rest)
    decreases h, 1
  {
    var c := Push(ctx, h.level);
    var (g, after) := Relabel(ctx, h);
    var tail := [Close(h.level)] + rest;
    var tags := Emit(h) + rest;
    assert tags[0] == Open(h.level);
    assert tags[1..] == EmitAll(h.inner) + tail;
    ElementsRewritten(c, open + [|c|], h.inner, tail);
    assert tail[1..] == rest && (open + [|c|])[..|open|] == open;
    var done := Rewrite(after, open, rest);
    assert Rewrite(after, open + [|c|], tail) == [Close(|c|)] + done;
    SeqAssociates([Open(|c|)], EmitAll(g.inner), [Close(|c|)] + done);
    SeqAssociates([Open(|c|)] + EmitAll(g.inner), [Close(|c|)], done);
  }

  /** On properly nested elements every closing tag gets the level of its opening tag: the output
      is again the tags of nested elements. */
  lemma {:induction false} ElementsRewritten(ctx: seq<nat>, open: seq<nat>, hs: seq<Heading>, rest: seq<Tag>)
    ensures var (gs, after) := RelabelAll(ctx, hs);
      Rewrite(ctx, open, EmitAll(hs) + rest) == EmitAll(gs) + Rewrite(after, open, rest)
    decreases hs, 0
  {
    hide Emit, Rewrite;
    if hs == [] {
      assert EmitAll(hs) + rest == rest;
    } else {
      var (g, c) := Relabel(ctx, hs[0]);
      var (gs, after) := RelabelAll(c, hs[1..]);
      SeqAssociates(Emit(hs[0]), EmitAll(hs[1..]), rest);
      ElementRewritten(ctx, open, hs[0], EmitAll(hs[1..]) + rest);
      ElementsRewritten(c, open, hs[1..], rest);
      SeqAssociates(Emit(g), EmitAll(gs), Rewrite(after, open, rest));
      assert ([g] + gs)[1..] == gs;
    }
  }

  lemma AssignedFirst(ctx: seq<nat>, lvl: nat, more: seq<nat>)
    ensures Assigned(ctx, [lvl] + more) == [|Push(ctx, lvl)|] + Assigned(Push(ctx, lvl), more)
    ensures After(ctx, [lvl] + more) == After(Push(ctx, lvl), more)
  {
    hide Push;
    assert ([lvl] + more)[1..] == more;
  }

  lemma {:induction false} AssignedAppend(ctx: seq<nat>, a: seq<nat>, b: seq<nat>)
    ensures Assigned(ctx, a + b) == Assigned(ctx, a) + Assigned(After(ctx, a), b)
    decreases |a|
  {
    hide Assigned, After, Push;
    if a == [] {
      assert a + b == b;
      NothingAssigned(ctx, b);
    } else {
      var lvl, rest := a[0], a[1..];
      var c := Push(ctx, lvl);
      assert a == [lvl] + rest && a + b == [lvl] + (rest + b);
      AssignedFirst(ctx, lvl, rest);
      AssignedFirst(ctx, lvl, rest + b);
      AssignedAppend(c, rest, b);
      SeqAssociates([|c|], Assigned(c, rest), Assigned(After(c, rest), b));
    }
  }

  lemma NothingAssigned(ctx: seq<nat>, b: seq<nat>)
    ensures Assigned(ctx, []) == [] && After(ctx, []) == ctx && [] + Assigned(ctx, b) == Assigned(ctx, b)
  {
  }

  function After(ctx: seq<nat>, levels: seq<nat>): seq<nat>
    decreases |levels|
  {
    if levels == [] then ctx else After(Push(ctx, levels[0]), levels[1..])
  }

  lemma {:induction false} AfterAppend(ctx: seq<nat>, a: seq<nat>, b: seq<nat>)
    ensures After(ctx, a + b) == After(After(ctx, a), b)
    decreases |a|
  {
    hide Push;
    if a == [] {
      assert a + b == b;
    } else {
      assert (a + b)[0] == a[0];
      AfterAppend(Push(ctx, a[0]), a[1..], b);
      assert (a + b)[1..] == a[1..] + b;
    }
  }

  lemma {:induction false} RelabelLevels(ctx: seq<nat>, h: Heading)
    ensures var (g, after) := Relabel(ctx, h);
      Preorder(g) == Assigned(ctx, Preorder(h)) && after == After(ctx, Preorder(h))
    decreases h, 1
  {
    RelabelAllLevels(Push(ctx, h.level), h.inner);
    assert Preorder(h)[1..] == PreorderAll(h.inner);
  }

  lemma {:induction false} RelabelAllLevels(ctx: seq<nat>, hs: seq<Heading>)
    ensures var (gs, after) := RelabelAll(ctx, hs);
      PreorderAll(gs) == Assigned(ctx, PreorderAll(hs)) && after == After(ctx, PreorderAll(hs))
    decreases hs, 0
  {
    if hs != [] {
      var (g, c) := Relabel(ctx, hs[0]);
      var (gs, after) := RelabelAll(c, hs[1..]);
      RelabelLevels(ctx, hs[0]);
      RelabelAllLevels(c, hs[1..]);
      AssignedAppend(ctx, Preorder(hs[0]), PreorderAll(hs[1..]));
      AfterAppend(ctx, Preorder(hs[0]), PreorderAll(hs[1..]));
      assert ([g] + gs)[1..] == gs;
    }
  }

  /** The whole pass on nested elements: again nested elements, with the renumbered levels in order. */
  lemma PageRenumbered(hs: seq<Heading>)
    ensures var gs := RelabelAll([], hs).0;
      Rewrite([], [], EmitAll(hs)) == EmitAll(gs) && PreorderAll(gs) == Renumbered(PreorderAll(hs))
  {
    var (gs, after) := RelabelAll([], hs);
    ElementsRewritten([], [], hs, []);
    assert EmitAll(hs) + [] == EmitAll(hs) && EmitAll(gs) + [] == EmitAll(gs);
    assert Rewrite(after, [], []) == [];
    RelabelAllLevels([], hs);
  }

  // ----- closing tags that fall anyhow -----

  /** Going back from `k`, the first opening tag that is left over when each closing tag on the way,
      and `pending` ones more, take one for themselves; -1 if there is none. */
  function Opener(tags: seq<Tag>, k: nat, pending: nat): (p: int)
    requires k <= |tags|
    ensures -1 <= p < k && (p >= 0 ==> tags[p].Open?)
  {
    if k == 0 then -1
    else if tags[k - 1].Close? then Opener(tags, k - 1, pending + 1)
    else if pending == 0 then k - 1
    else Opener(tags, k - 1, pending - 1)
  }

  /** The two stacks when the pass reaches tag `k`. */
  function Stacks(tags: seq<Tag>, k: nat): (seq<nat>, seq<nat>)
    requires k <= |tags|
  {
    if k == 0 then ([], [])
    else
      var (ctx, open) := Stacks(tags, k - 1);
      var (t, c, o) := RewriteOne(ctx, open, tags[k - 1]);
      (c, o)
  }

  function Out(tags: seq<Tag>, k: nat): Tag
    requires k < |tags|
  {
    RewriteOne(Stacks(tags, k).0, Stacks(tags, k).1, tags[k]).0
  }

  lemma {:induction false} RewriteIsOut(tags: seq<Tag>, k: nat)
    requires k <= |tags|
    ensures var (c, o) := Stacks(tags, k);
      var r := Rewrite(c, o, tags[k..]);
      |r| == |tags| - k && forall i :: k <= i < |tags| ==> r[i - k] == Out(tags, i)
    decreases |tags| - k
  {
    hide RewriteOne;
    if k < |tags| {
      RewriteIsOut(tags, k + 1);
      assert tags[k..][0] == tags[k] && tags[k..][1..] == tags[k + 1..];
    }
  }

  /** The stack of open tags holds the assigned levels of the tags left over, the nearest on top. */
  lemma {:induction false} StackIsOpeners(tags: seq<Tag>, k: nat, pending: nat)
    requires k <= |tags|
    ensures var open := Stacks(tags, k).1;
      if pending < |open| then
        Opener(tags, k, pending) >= 0
        && Out(tags, Opener(tags, k, pending)) == Open(open[|open| - 1 - pending])
      else Opener(tags, k, pending) == -1
  {
    hide Push;
    if k > 0 {
      if tags[k - 1].Close? {
        StackIsOpeners(tags, k - 1, pending + 1);
      } else if pending > 0 {
        StackIsOpeners(tags, k - 1, pending - 1);
      }
    }
  }

  /** Whatever the page holds, a closing tag gets the level its own opening tag was given, and keeps its
      level if it has none. */
  lemma ClosingTags(tags: seq<Tag>, i: nat)
    requires i < |tags| && tags[i].Close?
    ensures var out := Rewrite([], [], tags);
      var p := Opener(tags, i, 0);
      |out| == |tags| && (if p >= 0 then out[p].Open? && out[i] == Close(out[p].level) else out[i] == tags[i])
  {
    hide Rewrite, Out, Stacks, RewriteOne, Opener;
    RewrittenIsOut(tags, i);
    StackIsOpeners(tags, i, 0);
    CloseOut(tags, i);
    var p := Opener(tags, i, 0);
    if p >= 0 { RewrittenIsOut(tags, p); }
  }

  lemma RewrittenIsOut(tags: seq<Tag>, i: nat)
    requires i < |tags|
    ensures var out := Rewrite([], [], tags); |out| == |tags| && out[i] == Out(tags, i)
  {
    hide Rewrite, Out, RewriteOne;
    RewriteIsOut(tags, 0);
    assert tags[0..] == tags && Stacks(tags, 0) == ([], []);
    var out := Rewrite([], [], tags);
    assert out[i - 0] == Out(tags, i);
  }

  lemma CloseOut(tags: seq<Tag>, i: nat)
    requires i < |tags| && tags[i].Close?
    ensures var open := Stacks(tags, i).1;
      Out(tags, i) == if open == [] then tags[i] else Close(open[|open| - 1])
  {
  }
}
