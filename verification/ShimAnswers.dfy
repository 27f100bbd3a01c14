/** What the calls of the C API return, in terms of what the kernel answered: which request
    reaches it, on which heap, and what becomes of its result. */
module ShimAnswers {
  import opened LeanHeap
  import opened KernelCall
  import opened Shim

  /** `m` holds everything that was live in `s`, unchanged, and in `extra` the strings `texts`. */
  ghost predicate Sees(s: State, texts: seq<string>, m: State, extra: seq<Ptr>) {
    && (forall r: Ref :: r in s.heap ==> r in m.heap && m.heap[r].body == s.heap[r].body)
    && (forall r: Ref :: r in m.heap ==> r < m.next)
    && |extra| == |texts|
    && (forall i :: 0 <= i < |texts| ==>
          extra[i].At? && extra[i].r in m.heap && m.heap[extra[i].r].body == Str(texts[i]))
  }

  /** Asked for `op` with the handles `hs` and then the strings `texts`, the kernel saw the heap
      `m` and answered `a`. */
  ghost predicate Asked(k: Kernel, s: State, op: Op, hs: seq<Ptr>, texts: seq<string>, m: State, a: Outcome) {
    exists extra :: Sees(s, texts, m, extra) && a == k(m, Request(op, hs + extra))
  }

  /** `b` is the object `r` of the heap `m` or of what the answer `a` adds to it. */
  ghost predicate Describes(m: State, a: Outcome, r: Ref, b: Body) {
    if r < m.next then r in m.heap && m.heap[r].body == b
    else r < m.next + |a.built| && a.built[r - m.next] == b
  }

  /** `p` is live in `t` and the object the kernel described. */
  ghost predicate Delivered(m: State, a: Outcome, t: State, p: Ptr) {
    p.At? ==> p.r in t.heap && Describes(m, a, p.r, t.heap[p.r].body)
  }

  /** Null exactly for the answer `Option.none`; otherwise the one field of the answered option. */
  ghost predicate Unwrapped(m: State, a: Outcome, t: State, p: Ptr) {
    && (p == Null <==> a.result == Box(0))
    && (p != Null ==> a.result.At? && Describes(m, a, a.result.r, Ctor(1, [p])))
    && Delivered(m, a, t, p)
  }

  // ----- the kernel's heap -----

  lemma {:induction false} IncAllBodies(s: State, ps: seq<Ptr>)
    requires AllUsable(s, ps)
    ensures var t := IncAll(s, ps);
      && t.next == s.next && t.heap.Keys == s.heap.Keys
      && forall r: Ref :: r in s.heap ==> t.heap[r].body == s.heap[r].body
    decreases |ps|
  {
    if ps != [] {
      assert forall p :: p in ps[1..] ==> p in ps;
      IncAllBodies(Inc(s, ps[0]), ps[1..]);
    }
  }

  lemma {:induction false} BuildDescribes(s: State, built: seq<Body>)
    requires Buildable(s, built) && forall r: Ref :: r in s.heap ==> r < s.next
    ensures var t := Build(s, built);
      && (forall r: Ref :: r in t.heap ==> r < t.next == s.next + |built|)
      && (forall r: Ref :: r in t.heap && r < s.next ==> r in s.heap && t.heap[r].body == s.heap[r].body)
      && (forall r: Ref :: r in t.heap && s.next <= r ==> t.heap[r].body == built[r - s.next])
    decreases |built|
  {
    if built != [] {
      IncAllBodies(s, Fields(built[0]));
      var s' := Share(s, built[0]);
      BuildDescribes(s', built[1..]);
      var t := Build(s', built[1..]);
      forall r: Ref | r in t.heap && s.next <= r ensures t.heap[r].body == built[r - s.next] {
        if r != s.next { assert built[1..][r - s'.next] == built[r - s.next]; }
      }
    }
  }

  /** The result of a call is the kernel's, and what is live afterwards is as the kernel described. */
  lemma InvokeAnswers(k: Kernel, s: State, op: Op, args: seq<Ptr>, d: multiset<Ref>)
    requires Conforms(k) && Balanced(s, d + Refs(args)) && Null !in args
    ensures Covers(s, args)
    ensures var (t, p) := Invoke(k, s, op, args);
      var a := k(s, Request(op, args));
      p == a.result && forall r: Ref :: r in t.heap ==> Describes(s, a, r, t.heap[r].body)
  {
    hide Balanced, HasShape, One, Refs, Describes, Buildable, Build;
    BalancedCovers(s, d, args);
    var a := k(s, Request(op, args));
    assert FollowsConvention(s, Request(op, args).op, a);
    AnswerDescribed(s, a, args, d);
  }

  lemma AnswerDescribed(s: State, a: Outcome, args: seq<Ptr>, d: multiset<Ref>)
    requires Balanced(s, d + Refs(args)) && Null !in args
    requires Buildable(s, a.built) && Usable(Build(s, a.built), a.result)
    ensures var u := Inc(Build(s, a.built), a.result);
      var todo := Temporaries(s.next, |a.built|) + args;
      Covers(u, todo) && forall r: Ref :: r in Dec(u, todo).heap ==> Describes(s, a, r, Dec(u, todo).heap[r].body)
  {
    hide Balanced, One, Refs, Covers, Surplus, Describes, Buildable, Build, Dec, Temporaries, Inc;
    InvokeAffordable(s, args, a, d);
    var u := Inc(Build(s, a.built), a.result);
    DecBalanced(u, Temporaries(s.next, |a.built|) + args, d + One(a.result));
    BalancedCovers(s, d, args);
    Numbered(s, args);
    DescribedUntilDec(s, a, Dec(u, Temporaries(s.next, |a.built|) + args));
  }

  lemma DescribedUntilDec(s: State, a: Outcome, t: State)
    requires Buildable(s, a.built) && Usable(Build(s, a.built), a.result)
    requires forall r: Ref :: r in s.heap ==> r < s.next
    requires var u := Inc(Build(s, a.built), a.result);
      forall r: Ref :: r in t.heap ==> r in u.heap && t.heap[r].body == u.heap[r].body
    ensures forall r: Ref :: r in t.heap ==> Describes(s, a, r, t.heap[r].body)
  {
    hide Buildable, Build;
    BuildDescribes(s, a.built);
  }

  lemma Numbered(s: State, todo: seq<Ptr>)
    requires Covers(s, todo)
    ensures forall r: Ref :: r in s.heap ==> r < s.next
  {
  }

  lemma {:induction false} MakeStringsSees(m: State, c: multiset<Ref>, texts: seq<string>)
    requires Balanced(m, c)
    ensures var (t, ps) := MakeStrings(m, texts); Sees(m, texts, t, ps)
    decreases |texts|
  {
    if texts != [] {
      var (m1, p) := MakeString(m, texts[0]);
      AllocBalanced(m, c, Str(texts[0]));
      MakeStringsSees(m1, c + multiset{m.next}, texts[1..]);
      var (t, ps) := MakeStrings(m1, texts[1..]);
      forall i | 0 <= i < |texts|
        ensures ([p] + ps)[i].At? && ([p] + ps)[i].r in t.heap
        ensures t.heap[([p] + ps)[i].r].body == Str(texts[i])
      {
        if i > 0 { assert texts[1..][i - 1] == texts[i]; }
      }
    }
  }

  lemma BorrowAnswers(k: Kernel, m: State, c: multiset<Ref>, op: Op, h: Ptr, texts: seq<string>)
      returns (m1: State, a: Outcome)
    requires Conforms(k) && Balanced(m, c) && h != Null && (h.At? ==> h.r in c)
    ensures BorrowOk(m, h, texts)
    ensures Asked(k, m, op, [h], texts, m1, a)
    ensures var (t, p) := Borrow(k, m, op, h, texts);
      p == a.result && forall r: Ref :: r in t.heap ==> Describes(m1, a, r, t.heap[r].body)
  {
    hide Balanced, Covers, Describes;
    BorrowBalanced(k, m, c, op, h, texts);
    if h.At? { BalancedLive(m, c, h.r); }
    IncBalanced(m, c, h);
    MakeStringsBalanced(Inc(m, h), c + One(h), texts);
    MakeStringsSees(Inc(m, h), c + One(h), texts);
    var made := MakeStrings(Inc(m, h), texts);
    m1 := made.0;
    var extra := made.1;
    SeesThroughInc(m, h, texts, m1, extra);
    a := k(m1, Request(op, [h] + extra));
    assert ([h] + extra)[1..] == extra;
    assert c + One(h) + Refs(extra) == c + Refs([h] + extra);
    InvokeAnswers(k, m1, op, [h] + extra, c);
  }

  lemma SeesThroughInc(m: State, h: Ptr, texts: seq<string>, m1: State, extra: seq<Ptr>)
    requires Usable(m, h) && Sees(Inc(m, h), texts, m1, extra)
    ensures Sees(m, texts, m1, extra)
  {
  }

  // ----- the answers -----

  /** A parse hands its texts to the kernel, in order, and returns the handle the kernel made. */
  lemma ParseAnswer(k: Kernel, x: Session, op: Op, texts: seq<string>)
      returns (m: State, a: Outcome)
    requires Conforms(k) && Inv(x) && Legal(x, Parse(op, texts))
    ensures Asked(k, x.mem, op, [], texts, m, a)
    ensures var (y, p) := StepParse(k, x, op, texts); p == a.result && Delivered(m, a, y.mem, p)
  {
    hide Balanced, Covers, Describes;
    MakeStringsBalanced(x.mem, Holders(x), texts);
    MakeStringsSees(x.mem, Holders(x), texts);
    m := MakeStrings(x.mem, texts).0;
    var args := MakeStrings(x.mem, texts).1;
    assert [] + args == args;
    a := k(m, Request(op, [] + args));
    assert Asked(k, x.mem, op, [], texts, m, a);
    InvokeBalanced(k, m, op, args, Holders(x));
    InvokeAnswers(k, m, op, args, Holders(x));
  }

  /** An inspection returns the kernel's number. */
  lemma InspectAnswer(k: Kernel, x: Session, op: Op, h: Ptr)
      returns (m: State, a: Outcome)
    requires Conforms(k) && Inv(x) && Legal(x, Inspect(op, h))
    ensures Asked(k, x.mem, op, [h], [], m, a)
    ensures StepInspect(k, x, op, h).1 == a.result
  {
    m, a := BorrowAnswers(k, x.mem, Holders(x), op, h, []);
  }

  /** A child handle is the kernel's, and live. */
  lemma FetchAnswer(k: Kernel, x: Session, op: Op, h: Ptr)
      returns (m: State, a: Outcome)
    requires Conforms(k) && Inv(x) && Legal(x, Fetch(op, h))
    ensures Asked(k, x.mem, op, [h], [], m, a)
    ensures var (y, p) := StepFetch(k, x, op, h); p == a.result && Delivered(m, a, y.mem, p)
  {
    hide Balanced, Covers, Describes;
    m, a := BorrowAnswers(k, x.mem, Holders(x), op, h, []);
    BorrowBalanced(k, x.mem, Holders(x), op, h, []);
  }

  /** `l4yaml_value_lookup`: null exactly when the kernel found nothing; otherwise the one field
      of the option it answered with. */
  lemma LookupAnswer(k: Kernel, x: Session, h: Ptr, key: string)
      returns (m: State, a: Outcome)
    requires Conforms(k) && Inv(x) && Owns(x, h)
    ensures Asked(k, x.mem, LookupRaw, [h], [key], m, a)
    ensures var (y, p) := StepLookup(k, x, h, key); Unwrapped(m, a, y.mem, p)
  {
    hide Balanced, Covers, Describes;
    m, a := BorrowAnswers(k, x.mem, Holders(x), LookupRaw, h, [key]);
    BorrowBalanced(k, x.mem, Holders(x), LookupRaw, h, [key]);
    var (t, opt) := Borrow(k, x.mem, LookupRaw, h, [key]);
    UnwrapAnswers(x, t, opt, m, a);
    UnwrapGood(x, t, opt);
  }

  lemma UnwrapAnswers(x: Session, m: State, opt: Ptr, m1: State, a: Outcome)
    requires Inv(x) && Balanced(m, Holders(x) + One(opt)) && Evolves(x.mem, m) && HasShape(m, MaybeHandle, opt)
    requires opt == a.result && forall r: Ref :: r in m.heap ==> Describes(m1, a, r, m.heap[r].body)
    ensures UnwrapAffordable(m, opt)
    ensures var u := UnwrapOption(m, opt); Unwrapped(m1, a, u.0, u.1)
  {
    hide Balanced, Covers, Describes;
    UnwrapGood(x, m, opt);
    if opt != Box(0) {
      OptionField(m, Holders(x) + One(opt), m1, a, opt);
      var (t, val) := UnwrapOption(m, opt);
      if val.At? { BalancedLive(t, x.owned + One(val) + One(x.slot), val.r); }
    }
  }

  /** The field of a live option is live too, and not null. */
  lemma OptionField(m: State, c: multiset<Ref>, m1: State, a: Outcome, opt: Ptr)
    requires Balanced(m, c) && IsSome(m, opt)
    requires forall r: Ref :: r in m.heap ==> Describes(m1, a, r, m.heap[r].body)
    ensures var v := m.heap[opt.r].body.fields[0];
      Describes(m1, a, opt.r, Ctor(1, [v])) && v != Null && (v.At? ==> v.r in m.heap)
  {
    hide Describes, Surplus;
    var v := m.heap[opt.r].body.fields[0];
    assert m.heap[opt.r].body == Ctor(1, [v]);
    assert v in Fields(m.heap[opt.r].body);
    if v.At? { BalancedFieldsLive(m, c, opt.r, v.r); }
  }

  /** A string accessor returns the kernel's string. */
  lemma TextAnswer(k: Kernel, x: Session, op: Op, h: Ptr, texts: seq<string>)
      returns (m: State, a: Outcome)
    requires Conforms(k) && Inv(x) && Owns(x, h) && ReturnsOf(op) == Text
    ensures Asked(k, x.mem, op, [h], texts, m, a)
    ensures var (y, p) := StepText(k, x, op, h, texts); p == a.result && Delivered(m, a, y.mem, p)
  {
    hide Balanced, Covers, Describes;
    m, a := BorrowAnswers(k, x.mem, Holders(x), op, h, texts);
    BorrowBalanced(k, x.mem, Holders(x), op, h, texts);
    var (t, s) := Borrow(k, x.mem, op, h, texts);
    SlotSurvives(x, t, s);
    CaptureGood(x, t, s);
  }

  /** Tag and anchor: null exactly when the kernel has none; otherwise the string in its option. */
  lemma OptTextAnswer(k: Kernel, x: Session, op: Op, h: Ptr)
      returns (m: State, a: Outcome)
    requires Conforms(k) && Inv(x) && Owns(x, h) && ReturnsOf(op) == MaybeText
    ensures Asked(k, x.mem, op, [h], [], m, a)
    ensures var (y, p) := StepOptText(k, x, op, h); Unwrapped(m, a, y.mem, p)
  {
    hide Balanced, Covers, Describes;
    m, a := BorrowAnswers(k, x.mem, Holders(x), op, h, []);
    BorrowBalanced(k, x.mem, Holders(x), op, h, []);
    var (t, opt) := Borrow(k, x.mem, op, h, []);
    ExtractAnswers(x, t, opt, m, a);
    ExtractGood(x, t, opt);
  }

  lemma ExtractAnswers(x: Session, m: State, opt: Ptr, m1: State, a: Outcome)
    requires Inv(x) && Balanced(m, Holders(x) + One(opt)) && Evolves(x.mem, m) && HasShape(m, MaybeText, opt)
    requires opt == a.result && forall r: Ref :: r in m.heap ==> Describes(m1, a, r, m.heap[r].body)
    ensures ExtractAffordable(m, x.slot, opt)
    ensures var e := ExtractOptionString(m, x.slot, opt); Unwrapped(m1, a, e.0, e.2)
  {
    hide Balanced, Covers, Describes;
    SlotSurvives(x, m, opt);
    ExtractBalanced(m, x.owned, x.slot, opt);
    if opt != Box(0) { OptionField(m, Holders(x) + One(opt), m1, a, opt); }
  }

  /** The error readers return the kernel's message exactly when it is not empty. */
  lemma ErrorAnswer(k: Kernel, x: Session, op: Op, h: Ptr)
      returns (m: State, a: Outcome)
    requires Conforms(k) && Inv(x) && Owns(x, h) && ReturnsOf(op) == Text
    ensures Asked(k, x.mem, op, [h], [], m, a)
    ensures var (y, p) := StepError(k, x, op, h);
      && (p == Null <==> a.result.At? && Describes(m, a, a.result.r, Str("")))
      && (p != Null ==> p == a.result && Delivered(m, a, y.mem, p))
  {
    hide Balanced, Covers, Describes;
    m, a := BorrowAnswers(k, x.mem, Holders(x), op, h, []);
    BorrowBalanced(k, x.mem, Holders(x), op, h, []);
    var (t, s) := Borrow(k, x.mem, op, h, []);
    ErrorAnswers(x, t, s, m, a);
    if t.heap[s.r].body.text == "" { DropGood(x, t, s); } else { CaptureGood(x, t, s); }
  }

  lemma ErrorAnswers(x: Session, m: State, s: Ptr, m1: State, a: Outcome)
    requires Inv(x) && Balanced(m, Holders(x) + One(s)) && Evolves(x.mem, m) && IsText(m, s)
    requires s == a.result && forall r: Ref :: r in m.heap ==> Describes(m1, a, r, m.heap[r].body)
    ensures m.heap[s.r].body.text == "" <==> Describes(m1, a, s.r, Str(""))
    ensures SlotOk(m, x.slot)
    ensures x.slot != Null ==> Covers(m, [x.slot])
    ensures m.heap[s.r].body.text != "" ==> Delivered(m1, a, CaptureString(m, x.slot, s).0, s)
  {
    hide Balanced, Covers;
    SlotSurvives(x, m, s);
    CaptureGood(x, m, s);
    assert Describes(m1, a, s.r, m.heap[s.r].body);
  }

  // ----- any call -----

  function OpOf(call: Call): Op
    requires !call.Free? && !call.Finalize?
  {
    match call
    case Parse(op, _) => op
    case Inspect(op, _) => op
    case Fetch(op, _) => op
    case Lookup(_, _) => LookupRaw
    case FetchString(op, _) => op
    case FetchOptString(op, _) => op
    case ErrorMessage(op, _) => op
    case DumpConfigured(_, _) => DumpWithConfig
  }

  function HandlesOf(call: Call): seq<Ptr> {
    if call.Parse? || call.Finalize? then [] else [call.h]
  }

  function TextsOf(call: Call): seq<string> {
    match call
    case Parse(_, texts) => texts
    case Lookup(_, key) => [key]
    case DumpConfigured(_, config) => [config]
    case _ => []
  }

  /** What the call returns for the kernel's answer: the option of a lookup, a tag or an anchor is
      opened, an empty error message becomes null, everything else is passed on. */
  ghost predicate Returned(call: Call, m: State, a: Outcome, t: State, p: Ptr) {
    if call.Lookup? || call.FetchOptString? then Unwrapped(m, a, t, p)
    else if call.ErrorMessage? && p == Null then a.result.At? && Describes(m, a, a.result.r, Str(""))
    else p == a.result && Delivered(m, a, t, p)
  }

  lemma StringAnswer(k: Kernel, x: Session, call: Call) returns (m: State, a: Outcome)
    requires Conforms(k) && Inv(x) && Legal(x, call) && ReturnsString(call)
    requires call.ErrorMessage? ==> call.h != Null
    ensures Asked(k, x.mem, OpOf(call), HandlesOf(call), TextsOf(call), m, a)
    ensures var (y, p) := StepString(k, x, call); Returned(call, m, a, y.mem, p)
  {
    hide Inv, Asked, Unwrapped, Describes, Evolves, Conforms;
    match call
    case FetchString(op, h) => m, a := TextAnswer(k, x, op, h, []);
    case FetchOptString(op, h) => m, a := OptTextAnswer(k, x, op, h);
    case ErrorMessage(op, h) => m, a := ErrorAnswer(k, x, op, h);
    case DumpConfigured(h, config) => m, a := TextAnswer(k, x, DumpWithConfig, h, [config]);
  }

  lemma OtherAnswer(k: Kernel, x: Session, call: Call) returns (m: State, a: Outcome)
    requires Conforms(k) && Inv(x) && Legal(x, call) && !ReturnsString(call) && !call.Free? && !call.Finalize?
    ensures Asked(k, x.mem, OpOf(call), HandlesOf(call), TextsOf(call), m, a)
    ensures var (y, p) := StepOther(k, x, call); Returned(call, m, a, y.mem, p)
  {
    hide Inv, Asked, Unwrapped, Describes, Evolves, Conforms;
    match call
    case Parse(op, texts) => m, a := ParseAnswer(k, x, op, texts);
    case Inspect(op, h) => m, a := InspectAnswer(k, x, op, h);
    case Fetch(op, h) => m, a := FetchAnswer(k, x, op, h);
    case Lookup(h, key) => m, a := LookupAnswer(k, x, h, key);
  }

  /** Every call that asks the kernel passes on its own operation, handle and texts, and returns
      what the kernel answered. */
  lemma StepAnswer(k: Kernel, x: Session, call: Call)
    requires Conforms(k) && Inv(x) && Legal(x, call) && !call.Free? && !call.Finalize?
    requires call.ErrorMessage? ==> call.h != Null
    ensures exists m, a ::
      && Asked(k, x.mem, OpOf(call), HandlesOf(call), TextsOf(call), m, a)
      && var (y, p) := Step(k, x, call); Returned(call, m, a, y.mem, p)
  {
    hide Inv, Asked, Returned, Legal, Conforms;
    var m, a;
    if ReturnsString(call) { m, a := StringAnswer(k, x, call); } else { m, a := OtherAnswer(k, x, call); }
  }
}
