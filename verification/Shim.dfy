/** The public C API as steps over a session: the Lean heap, the thread-local string
    slot, and the handles the client owns. Inspection takes a reference first, because
    the kernel consumes what it is given. */
module Shim {
  import opened LeanHeap
  import opened KernelCall

  /** `slot` is `tls_last_string`; `owned` counts the client's references per object. */
  datatype Session = Session(mem: State, slot: Ptr, owned: multiset<Ref>)

  ghost function Holders(x: Session): multiset<Ref> {
    x.owned + One(x.slot)
  }

  ghost predicate SlotOk(m: State, slot: Ptr) {
    slot == Null || IsText(m, slot)
  }

  /** Each live object's count is its client handles, the references from live objects,
      and one more if the string slot holds it. */
  ghost predicate Inv(x: Session) {
    Balanced(x.mem, Holders(x)) && SlotOk(x.mem, x.slot)
  }

  ghost predicate Owns(x: Session, h: Ptr) {
    h != Null && (h.At? ==> h.r in x.owned)
  }

  /** Before any call: nothing allocated, nothing captured, nothing owned. */
  ghost function Start(): (x: Session)
    ensures Inv(x) && x.owned == multiset{}
  {
    var x := Session(State(map[], 0), Null, multiset{});
    EmptyBalanced();
    x
  }

  lemma EmptyBalanced()
    ensures Balanced(State(map[], 0), multiset{})
  {
    forall r: Ref ensures Surplus(State(map[], 0), [], r) == 0 { }
  }

  // ----- the string slot -----

  /** Drops the string in the slot, if any, and keeps `s` instead. */
  function CaptureString(m: State, slot: Ptr, s: Ptr): (State, Ptr)
    requires slot != Null ==> Covers(m, [slot])
  {
    (if slot != Null then Dec(m, [slot]) else m, s)
  }

  lemma OneIsRefs(p: Ptr)
    ensures Refs([p]) == One(p)
  {
  }

  /** The captured string stays live even when it is the object already in the slot. */
  lemma CaptureBalanced(m: State, owned: multiset<Ref>, slot: Ptr, s: Ptr)
    requires Balanced(m, owned + One(slot) + One(s)) && SlotOk(m, slot) && IsText(m, s)
    ensures slot != Null ==> Covers(m, [slot])
    ensures var (m', slot') := CaptureString(m, slot, s);
      Balanced(m', owned + One(slot')) && SlotOk(m', slot') && slot' == s && Evolves(m, m')
  {
    OneIsRefs(slot);
    if slot != Null {
      assert owned + One(slot) + One(s) == owned + One(s) + Refs([slot]);
      DecBalanced(m, [slot], owned + One(s));
      BalancedLive(Dec(m, [slot]), owned + One(s), s.r);
    }
  }

  /** Drops one reference nobody else needs to know about. */
  lemma DropBalanced(m: State, d: multiset<Ref>, p: Ptr)
    requires Balanced(m, d + One(p)) && p != Null
    ensures Covers(m, [p])
    ensures Balanced(Dec(m, [p]), d) && Evolves(m, Dec(m, [p]))
  {
    OneIsRefs(p);
    DecBalanced(m, [p], d);
  }

  /** `none` is dropped; `some s` gives up the option and captures the string inside. */
  function ExtractOptionString(m: State, slot: Ptr, opt: Ptr): (State, Ptr, Ptr)
    requires IsSome(m, opt) || opt == Box(0)
    requires ExtractAffordable(m, slot, opt)
  {
    if Tag(m, opt) == 0 then (Dec(m, [opt]), slot, Null)
    else
      var s := m.heap[opt.r].body.fields[0];
      var m1 := Inc(m, s);
      var m2 := Dec(m1, [opt]);
      var (m3, slot') := CaptureString(m2, slot, s);
      (m3, slot', s)
  }

  ghost predicate ExtractAffordable(m: State, slot: Ptr, opt: Ptr) {
    && (opt == Box(0) ==> Covers(m, [opt]))
    && (opt != Box(0) ==>
          IsSome(m, opt) &&
          var s := m.heap[opt.r].body.fields[0];
          Usable(m, s) && Covers(Inc(m, s), [opt]) &&
          (slot != Null ==> Covers(Dec(Inc(m, s), [opt]), [slot])))
  }

  lemma ExtractBalanced(m: State, owned: multiset<Ref>, slot: Ptr, opt: Ptr)
    requires Balanced(m, owned + One(slot) + One(opt)) && SlotOk(m, slot)
    requires HasShape(m, MaybeText, opt)
    ensures ExtractAffordable(m, slot, opt)
    ensures var (m', slot', s) := ExtractOptionString(m, slot, opt);
      && Balanced(m', owned + One(slot')) && SlotOk(m', slot') && Evolves(m, m')
      && (s != Null ==> slot' == s) && (s == Null ==> slot' == slot)
      && (s == Null <==> opt == Box(0))
      && (opt != Box(0) ==> s == m.heap[opt.r].body.fields[0])
  {
    if opt == Box(0) {
      DropBalanced(m, owned + One(slot), opt);
      if slot != Null { BalancedLive(Dec(m, [opt]), owned + One(slot), slot.r); }
    } else {
      var s := m.heap[opt.r].body.fields[0];
      var c := owned + One(slot);
      IncBalanced(m, c + One(opt), s);
      var m1 := Inc(m, s);
      assert c + One(opt) + One(s) == c + One(s) + One(opt);
      DropBalanced(m1, c + One(s), opt);
      var m2 := Dec(m1, [opt]);
      BalancedLive(m2, c + One(s), s.r);
      if slot != Null { BalancedLive(m2, c + One(s), slot.r); }
      CaptureBalanced(m2, owned, slot, s);
      var (m3, slot') := CaptureString(m2, slot, s);
      IncEvolves(m, s);
      EvolvesTrans(m, m1, m2);
      EvolvesTrans(m, m2, m3);
    }
  }

  // ----- calls -----

  datatype Call =
    | Parse(parser: Op, texts: seq<string>)
    | Inspect(query: Op, h: Ptr)
    | Fetch(getter: Op, h: Ptr)
    | Lookup(h: Ptr, key: string)
    | FetchString(reader: Op, h: Ptr)
    | FetchOptString(reader: Op, h: Ptr)
    | ErrorMessage(reader: Op, h: Ptr)
    | DumpConfigured(h: Ptr, config: string)
    | Free(h: Ptr)
    | Finalize

  predicate WellTyped(call: Call) {
    match call
    case Parse(op, texts) =>
      if op.ParseWithConfig? then |texts| == 2
      else (op.ParseSafe? || op.ParseSingleSafe? || op.ParseLimits?) && |texts| == 1
    case Inspect(op, _) => ReturnsOf(op) == Number
    case Fetch(op, _) => op in {ResultDocs, ResultValue, DocRoot, ConfigGetLimits}
                         || op.DocsGet? || op.SeqGet? || op.MapKey? || op.MapVal?
    case FetchString(op, _) => op in {AsString, DumpRaw, DumpDocsRaw}
    case FetchOptString(op, _) => op in {TagRaw, AnchorRaw}
    case ErrorMessage(op, _) => op in {ResultGetError, ConfigGetError}
    case _ => true
  }

  /** The client passes handles it owns; only the error readers and `free` accept null. */
  ghost predicate Legal(x: Session, call: Call) {
    && WellTyped(call)
    && match call
       case Parse(_, _) | Finalize => true
       case ErrorMessage(_, h) => h == Null || Owns(x, h)
       case Free(h) => h == Null || Owns(x, h)
       case _ => Owns(x, call.h)
  }

  function MakeString(m: State, text: string): (State, Ptr) {
    (Alloc(m, Str(text)), At(m.next))
  }

  function MakeStrings(m: State, texts: seq<string>): (State, seq<Ptr>)
    decreases |texts|
  {
    if texts == [] then (m, [])
    else
      var (m1, p) := MakeString(m, texts[0]);
      var (m2, ps) := MakeStrings(m1, texts[1..]);
      (m2, [p] + ps)
  }

  lemma MakeStringsUnfold(m: State, a: string, b: string)
    ensures MakeStrings(m, [a]) == (MakeString(m, a).0, [MakeString(m, a).1])
    ensures var m1 := MakeString(m, a).0;
      MakeStrings(m, [a, b]) == (MakeString(m1, b).0, [MakeString(m, a).1, MakeString(m1, b).1])
  {
    MakeStringsOne(m, a);
    var (m1, p) := MakeString(m, a);
    MakeStringsOne(m1, b);
    assert [a, b][1..] == [b];
    assert MakeStrings(m, [a, b]) == (MakeStrings(m1, [b]).0, [p] + MakeStrings(m1, [b]).1);
    var q := MakeString(m1, b).1;
    assert [p] + [q] == [p, q];
  }

  lemma MakeStringsOne(m: State, a: string)
    ensures MakeStrings(m, [a]) == (MakeString(m, a).0, [MakeString(m, a).1])
  {
    var (m1, p) := MakeString(m, a);
    assert [a][1..] == [];
    assert MakeStrings(m, [a]) == (MakeStrings(m1, []).0, [p] + MakeStrings(m1, []).1);
    assert [p] + [] == [p];
  }

  lemma {:induction false} MakeStringsBalanced(m: State, c: multiset<Ref>, texts: seq<string>)
    requires Balanced(m, c)
    ensures var (t, ps) := MakeStrings(m, texts);
      Balanced(t, c + Refs(ps)) && Null !in ps && Evolves(m, t)
    decreases |texts|
  {
    if texts != [] {
      var (m1, p) := MakeString(m, texts[0]);
      AllocBalanced(m, c, Str(texts[0]));
      MakeStringsBalanced(m1, c + One(p), texts[1..]);
      var (m2, ps) := MakeStrings(m1, texts[1..]);
      assert ([p] + ps)[1..] == ps;
      assert c + One(p) + Refs(ps) == c + Refs([p] + ps);
      EvolvesTrans(m, m1, m2);
    }
  }

  /** A reference taken for the kernel, which consumes it together with `extra`. */
  function Borrow(k: Kernel, m: State, op: Op, h: Ptr, texts: seq<string>): (State, Ptr)
    requires Conforms(k) && BorrowOk(m, h, texts)
  {
    var (m1, extra) := MakeStrings(Inc(m, h), texts);
    Invoke(k, m1, op, [h] + extra)
  }

  ghost predicate BorrowOk(m: State, h: Ptr, texts: seq<string>) {
    Usable(m, h) && var (m1, extra) := MakeStrings(Inc(m, h), texts); Covers(m1, [h] + extra)
  }

  lemma BorrowBalanced(k: Kernel, m: State, c: multiset<Ref>, op: Op, h: Ptr, texts: seq<string>)
    requires Conforms(k) && Balanced(m, c) && h != Null && (h.At? ==> h.r in c)
    ensures BorrowOk(m, h, texts)
    ensures var (t, p) := Borrow(k, m, op, h, texts);
      Balanced(t, c + One(p)) && Usable(t, p) && HasShape(t, ReturnsOf(op), p) && Evolves(m, t)
  {
    if h.At? { BalancedLive(m, c, h.r); }
    IncBalanced(m, c, h);
    IncEvolves(m, h);
    MakeStringsBalanced(Inc(m, h), c + One(h), texts);
    var (m1, extra) := MakeStrings(Inc(m, h), texts);
    assert ([h] + extra)[1..] == extra;
    assert c + One(h) + Refs(extra) == c + Refs([h] + extra);
    InvokeBalanced(k, m1, op, [h] + extra, c);
    var (t, p) := Borrow(k, m, op, h, texts);
    EvolvesTrans(m, Inc(m, h), m1);
    EvolvesTrans(m, m1, t);
  }

  lemma SlotStays(m: State, t: State, d: multiset<Ref>, slot: Ptr)
    requires SlotOk(m, slot) && Balanced(t, d + One(slot)) && Evolves(m, t)
    ensures SlotOk(t, slot)
  {
    if slot != Null { BalancedLive(t, d + One(slot), slot.r); }
  }

  /** How the client's holdings change: a returned handle is owned, a freed one is not. */
  function OwnedAfter(owned: multiset<Ref>, call: Call, p: Ptr): multiset<Ref> {
    match call
    case Parse(_, _) | Fetch(_, _) | Lookup(_, _) => owned + One(p)
    case Free(h) => owned - One(h)
    case _ => owned
  }

  /** The calls that replace what the slot holds: a string was returned, or the library shut down. */
  predicate Captures(call: Call, p: Ptr) {
    match call
    case FetchString(_, _) | FetchOptString(_, _) | ErrorMessage(_, _) | DumpConfigured(_, _) => p != Null
    case Finalize => true
    case _ => false
  }

  ghost predicate GoodStep(x: Session, call: Call, y: Session, p: Ptr) {
    && Inv(y) && Evolves(x.mem, y.mem)
    && y.owned == OwnedAfter(x.owned, call, p)
    && y.slot == (if !Captures(call, p) then x.slot else if call.Finalize? then Null else p)
    && (call.Parse? || call.Fetch? ==> p != Null)
  }

  // ----- one function per call -----

  function StepParse(k: Kernel, x: Session, op: Op, texts: seq<string>): (r: (Session, Ptr))
    requires Conforms(k) && Inv(x) && Legal(x, Parse(op, texts))
    ensures GoodStep(x, Parse(op, texts), r.0, r.1)
  {
    MakeStringsBalanced(x.mem, Holders(x), texts);
    var (m1, args) := MakeStrings(x.mem, texts);
    InvokeBalanced(k, m1, op, args, Holders(x));
    var (m2, p) := Invoke(k, m1, op, args);
    EvolvesTrans(x.mem, m1, m2);
    assert x.owned + One(x.slot) + One(p) == x.owned + One(p) + One(x.slot);
    SlotStays(x.mem, m2, x.owned + One(p), x.slot);
    (Session(m2, x.slot, x.owned + One(p)), p)
  }

  function StepInspect(k: Kernel, x: Session, op: Op, h: Ptr): (r: (Session, Ptr))
    requires Conforms(k) && Inv(x) && Legal(x, Inspect(op, h))
    ensures GoodStep(x, Inspect(op, h), r.0, r.1) && r.1.Box?
  {
    BorrowBalanced(k, x.mem, Holders(x), op, h, []);
    var (m, p) := Borrow(k, x.mem, op, h, []);
    SlotStays(x.mem, m, x.owned, x.slot);
    (x.(mem := m), p)
  }

  function StepFetch(k: Kernel, x: Session, op: Op, h: Ptr): (r: (Session, Ptr))
    requires Conforms(k) && Inv(x) && Legal(x, Fetch(op, h))
    ensures GoodStep(x, Fetch(op, h), r.0, r.1)
  {
    BorrowBalanced(k, x.mem, Holders(x), op, h, []);
    var (m, p) := Borrow(k, x.mem, op, h, []);
    assert x.owned + One(x.slot) + One(p) == x.owned + One(p) + One(x.slot);
    SlotStays(x.mem, m, x.owned + One(p), x.slot);
    (Session(m, x.slot, x.owned + One(p)), p)
  }

  /** Null for an absent key; otherwise the value inside the option, with its own reference. */
  function StepLookup(k: Kernel, x: Session, h: Ptr, key: string): (r: (Session, Ptr))
    requires Conforms(k) && Inv(x) && Owns(x, h)
    ensures Inv(r.0) && Evolves(x.mem, r.0.mem) && r.0.owned == x.owned + One(r.1) && r.0.slot == x.slot
  {
    BorrowBalanced(k, x.mem, Holders(x), LookupRaw, h, [key]);
    var (m, opt) := Borrow(k, x.mem, LookupRaw, h, [key]);
    UnwrapGood(x, m, opt);
    var u := UnwrapOption(m, opt);
    (x.(mem := u.0, owned := x.owned + One(u.1)), u.1)
  }

  function UnwrapOption(m: State, opt: Ptr): (State, Ptr)
    requires UnwrapAffordable(m, opt)
  {
    if Tag(m, opt) == 0 then (Dec(m, [opt]), Null)
    else
      var val := m.heap[opt.r].body.fields[0];
      (Dec(Inc(m, val), [opt]), val)
  }

  ghost predicate UnwrapAffordable(m: State, opt: Ptr) {
    && (opt == Box(0) ==> Covers(m, [opt]))
    && (opt != Box(0) ==>
          IsSome(m, opt) &&
          var val := m.heap[opt.r].body.fields[0];
          Usable(m, val) && Covers(Inc(m, val), [opt]))
  }

  lemma UnwrapGood(x: Session, m: State, opt: Ptr)
    requires Inv(x) && Balanced(m, Holders(x) + One(opt)) && Evolves(x.mem, m) && HasShape(m, MaybeHandle, opt)
    ensures UnwrapAffordable(m, opt)
    ensures var u := UnwrapOption(m, opt);
      Inv(x.(mem := u.0, owned := x.owned + One(u.1))) && Evolves(x.mem, u.0) && Evolves(m, u.0)
  {
    if opt == Box(0) {
      DropGood(x, m, opt);
      DropBalanced(m, Holders(x), opt);
      assert x.owned + One(Null) == x.owned;
    } else {
      var val := m.heap[opt.r].body.fields[0];
      if val.At? { BalancedFieldsLive(m, Holders(x) + One(opt), opt.r, val.r); }
      IncBalanced(m, Holders(x) + One(opt), val);
      IncEvolves(m, val);
      var d := x.owned + One(val) + One(x.slot);
      assert Holders(x) + One(opt) + One(val) == d + One(opt);
      DropBalanced(Inc(m, val), d, opt);
      var t := Dec(Inc(m, val), [opt]);
      EvolvesTrans(m, Inc(m, val), t);
      EvolvesTrans(x.mem, m, t);
      SlotStays(x.mem, t, x.owned + One(val), x.slot);
    }
  }

  /** Any accessor that returns a string captures it, also when a configuration text goes along. */
  function StepText(k: Kernel, x: Session, op: Op, h: Ptr, texts: seq<string>): (r: (Session, Ptr))
    requires Conforms(k) && Inv(x) && Owns(x, h) && ReturnsOf(op) == Text
    ensures Inv(r.0) && Evolves(x.mem, r.0.mem) && r.0.owned == x.owned && r.0.slot == r.1 && r.1.At?
  {
    BorrowBalanced(k, x.mem, Holders(x), op, h, texts);
    var (m, s) := Borrow(k, x.mem, op, h, texts);
    SlotSurvives(x, m, s);
    CaptureGood(x, m, s);
    var (m', slot') := CaptureString(m, x.slot, s);
    (x.(mem := m', slot := slot'), s)
  }

  lemma CaptureGood(x: Session, m: State, s: Ptr)
    requires Inv(x) && Balanced(m, Holders(x) + One(s)) && Evolves(x.mem, m) && SlotOk(m, x.slot) && IsText(m, s)
    ensures x.slot != Null ==> Covers(m, [x.slot])
    ensures var (m', slot') := CaptureString(m, x.slot, s);
      && Inv(x.(mem := m', slot := slot')) && Evolves(x.mem, m') && slot' == s
      && m'.heap[s.r].body == m.heap[s.r].body
  {
    CaptureBalanced(m, x.owned, x.slot, s);
    var (m', slot') := CaptureString(m, x.slot, s);
    EvolvesTrans(x.mem, m, m');
  }

  function StepOptText(k: Kernel, x: Session, op: Op, h: Ptr): (r: (Session, Ptr))
    requires Conforms(k) && Inv(x) && Owns(x, h) && ReturnsOf(op) == MaybeText
    ensures Inv(r.0) && Evolves(x.mem, r.0.mem) && r.0.owned == x.owned
    ensures r.0.slot == if r.1 != Null then r.1 else x.slot
  {
    BorrowBalanced(k, x.mem, Holders(x), op, h, []);
    var (m, opt) := Borrow(k, x.mem, op, h, []);
    ExtractGood(x, m, opt);
    var e := ExtractOptionString(m, x.slot, opt);
    (x.(mem := e.0, slot := e.1), e.2)
  }

  lemma ExtractGood(x: Session, m: State, opt: Ptr)
    requires Inv(x) && Balanced(m, Holders(x) + One(opt)) && Evolves(x.mem, m) && HasShape(m, MaybeText, opt)
    ensures ExtractAffordable(m, x.slot, opt)
    ensures var e := ExtractOptionString(m, x.slot, opt);
      && Inv(x.(mem := e.0, slot := e.1)) && Evolves(x.mem, e.0) && e.1 == (if e.2 != Null then e.2 else x.slot)
  {
    SlotSurvives(x, m, opt);
    ExtractBalanced(m, x.owned, x.slot, opt);
    var (m', slot', s) := ExtractOptionString(m, x.slot, opt);
    EvolvesTrans(x.mem, m, m');
  }

  lemma DropGood(x: Session, m: State, s: Ptr)
    requires Inv(x) && Balanced(m, Holders(x) + One(s)) && Evolves(x.mem, m) && s != Null
    ensures Covers(m, [s]) && Inv(x.(mem := Dec(m, [s]))) && Evolves(x.mem, Dec(m, [s]))
  {
    DropBalanced(m, Holders(x), s);
    EvolvesTrans(x.mem, m, Dec(m, [s]));
    SlotStays(x.mem, Dec(m, [s]), x.owned, x.slot);
  }

  lemma SlotSurvives(x: Session, m: State, p: Ptr)
    requires Inv(x) && Balanced(m, Holders(x) + One(p)) && Evolves(x.mem, m)
    ensures SlotOk(m, x.slot)
  {
    if x.slot != Null { BalancedLive(m, Holders(x) + One(p), x.slot.r); }
  }

  /** Null on a null handle and on the empty message of a good result; otherwise the message. */
  function StepError(k: Kernel, x: Session, op: Op, h: Ptr): (r: (Session, Ptr))
    requires Conforms(k) && Inv(x) && (h == Null || Owns(x, h)) && ReturnsOf(op) == Text
    ensures Inv(r.0) && Evolves(x.mem, r.0.mem) && r.0.owned == x.owned
    ensures r.0.slot == if r.1 != Null then r.1 else x.slot
    ensures h == Null ==> r == (x, Null)
    ensures r.1 != Null ==> r.0.mem.heap[r.1.r].body.text != ""
  {
    if h == Null then (x, Null)
    else
      BorrowBalanced(k, x.mem, Holders(x), op, h, []);
      var (m, s) := Borrow(k, x.mem, op, h, []);
      SlotSurvives(x, m, s);
      if m.heap[s.r].body.text == "" then
        DropGood(x, m, s);
        (x.(mem := Dec(m, [s])), Null)
      else
        CaptureGood(x, m, s);
        var (m', slot') := CaptureString(m, x.slot, s);
        (x.(mem := m', slot := slot'), s)
  }

  function StepFree(x: Session, h: Ptr): (r: Session)
    requires Inv(x) && Legal(x, Free(h))
    ensures GoodStep(x, Free(h), r, Null)
  {
    if h == Null then x
    else
      assert Holders(x) == x.owned - One(h) + One(x.slot) + One(h);
      DropBalanced(x.mem, x.owned - One(h) + One(x.slot), h);
      SlotStays(x.mem, Dec(x.mem, [h]), x.owned - One(h), x.slot);
      x.(mem := Dec(x.mem, [h]), owned := x.owned - One(h))
  }

  function StepFinalize(x: Session): (r: Session)
    requires Inv(x)
    ensures GoodStep(x, Finalize, r, Null)
  {
    if x.slot == Null then x
    else
      DropBalanced(x.mem, x.owned, x.slot);
      assert x.owned + One(Null) == x.owned;
      x.(mem := Dec(x.mem, [x.slot]), slot := Null)
  }

  predicate ReturnsString(call: Call) {
    call.FetchString? || call.FetchOptString? || call.ErrorMessage? || call.DumpConfigured?
  }

  function StepString(k: Kernel, x: Session, call: Call): (r: (Session, Ptr))
    requires Conforms(k) && Inv(x) && Legal(x, call) && ReturnsString(call)
    ensures Inv(r.0) && Evolves(x.mem, r.0.mem) && r.0.owned == x.owned
    ensures r.0.slot == if r.1 != Null then r.1 else x.slot
  {
    match call
    case FetchString(op, h) => StepText(k, x, op, h, [])
    case FetchOptString(op, h) => StepOptText(k, x, op, h)
    case ErrorMessage(op, h) => StepError(k, x, op, h)
    case DumpConfigured(h, config) => StepText(k, x, DumpWithConfig, h, [config])
  }

  lemma StringIsGood(x: Session, call: Call, y: Session, p: Ptr)
    requires ReturnsString(call) && Inv(y) && Evolves(x.mem, y.mem) && y.owned == x.owned
    requires y.slot == if p != Null then p else x.slot
    ensures GoodStep(x, call, y, p)
  {
  }

  function StepOther(k: Kernel, x: Session, call: Call): (r: (Session, Ptr))
    requires Conforms(k) && Inv(x) && Legal(x, call) && !ReturnsString(call)
    ensures GoodStep(x, call, r.0, r.1)
  {
    match call
    case Parse(op, texts) => StepParse(k, x, op, texts)
    case Inspect(op, h) => StepInspect(k, x, op, h)
    case Fetch(op, h) => StepFetch(k, x, op, h)
    case Lookup(h, key) => StepLookup(k, x, h, key)
    case Free(h) => (StepFree(x, h), Null)
    case Finalize => (StepFinalize(x), Null)
  }

  function Step(k: Kernel, x: Session, call: Call): (r: (Session, Ptr))
    requires Conforms(k) && Inv(x) && Legal(x, call)
    ensures GoodStep(x, call, r.0, r.1)
  {
    if ReturnsString(call) then
      var r := StepString(k, x, call);
      StringIsGood(x, call, r.0, r.1);
      r
    else StepOther(k, x, call)
  }

  // ----- runs -----

  /** Every call of the run is legal in the session it meets. */
  ghost predicate LegalRun(k: Kernel, x: Session, calls: seq<Call>)
    requires Conforms(k) && Inv(x)
    decreases |calls|
  {
    calls == [] || (Legal(x, calls[0]) && LegalRun(k, Step(k, x, calls[0]).0, calls[1..]))
  }

  function Run(k: Kernel, x: Session, calls: seq<Call>): (y: Session)
    requires Conforms(k) && Inv(x) && LegalRun(k, x, calls)
    ensures Inv(y)
    decreases |calls|
  {
    if calls == [] then x else Run(k, Step(k, x, calls[0]).0, calls[1..])
  }

  /** In every session a legal client can reach, the live objects are exactly those its
      handles and the string slot lead to, and every handle names a live object. */
  lemma ReachableSessions(k: Kernel, calls: seq<Call>)
    requires Conforms(k) && LegalRun(k, Start(), calls)
    ensures var x := Run(k, Start(), calls);
      && (forall r: Ref :: Count(x.mem.heap, r)
             == x.owned[r] + One(x.slot)[r] + Inbound(x.mem.heap, x.mem.next)[r])
      && (forall r: Ref :: r in x.mem.heap <==> Reachable(x.mem.heap, Holders(x), r))
      && (forall r: Ref :: r in x.owned ==> r in x.mem.heap)
  {
    var x := Run(k, Start(), calls);
    forall r: Ref
      ensures Count(x.mem.heap, r) == x.owned[r] + One(x.slot)[r] + Inbound(x.mem.heap, x.mem.next)[r]
      ensures r in x.mem.heap <==> Reachable(x.mem.heap, Holders(x), r)
      ensures r in x.owned ==> r in x.mem.heap
    {
      assert Surplus(x.mem, [], r) == Holders(x)[r];
      if r in x.mem.heap { LiveIsReachable(x.mem, Holders(x), r); }
      if r in x.owned { BalancedLive(x.mem, Holders(x), r); }
    }
  }

  /** A client that has freed every handle and then shuts down leaves no live object. */
  lemma NoLeak(k: Kernel, calls: seq<Call>)
    requires Conforms(k) && LegalRun(k, Start(), calls)
    requires Run(k, Start(), calls).owned == multiset{}
    ensures StepFinalize(Run(k, Start(), calls)).mem.heap == map[]
  {
    var y := StepFinalize(Run(k, Start(), calls));
    assert Holders(y) == multiset{};
    NoHolderNoObject(y.mem);
  }

  /** Freeing a handle collects exactly what the remaining holders no longer reach. */
  lemma FreeIsTracing(x: Session, h: Ptr)
    requires Inv(x) && h != Null && Legal(x, Free(h))
    ensures var y := StepFree(x, h);
      && (forall r: Ref :: r in y.mem.heap <==> Reachable(x.mem.heap, Holders(y), r))
      && (forall r: Ref :: r in y.mem.heap ==> y.mem.heap[r].body == x.mem.heap[r].body)
  {
    OneIsRefs(h);
    var d := x.owned - One(h) + One(x.slot);
    assert Holders(x) == d + Refs([h]);
    DecIsTracing(x.mem, [h], d);
  }

  /** No call of the run replaces the slot. */
  ghost predicate NoCapture(k: Kernel, x: Session, calls: seq<Call>)
    requires Conforms(k) && Inv(x) && LegalRun(k, x, calls)
    decreases |calls|
  {
    calls == [] ||
    (var (y, p) := Step(k, x, calls[0]); !Captures(calls[0], p) && NoCapture(k, y, calls[1..]))
  }

  /** A returned string stays readable until the next string is returned or the library
      shuts down, whatever is freed in between, its parent's handle included. */
  lemma {:induction false} StringLifetime(k: Kernel, x: Session, calls: seq<Call>)
    requires Conforms(k) && Inv(x) && LegalRun(k, x, calls) && NoCapture(k, x, calls)
    ensures var y := Run(k, x, calls);
      y.slot == x.slot &&
      (x.slot != Null ==> IsText(y.mem, x.slot) && y.mem.heap[x.slot.r].body == x.mem.heap[x.slot.r].body)
    decreases |calls|
  {
    if calls != [] {
      var (y, p) := Step(k, x, calls[0]);
      StringLifetime(k, y, calls[1..]);
    }
  }

  /** The run never gives up its last handle on `r`. */
  ghost predicate KeepsHandle(k: Kernel, x: Session, calls: seq<Call>, r: Ref)
    requires Conforms(k) && Inv(x) && LegalRun(k, x, calls)
    decreases |calls|
  {
    r in x.owned && (calls == [] || KeepsHandle(k, Step(k, x, calls[0]).0, calls[1..], r))
  }

  /** Everything an owned handle leads to stays live and unchanged while the handle is kept,
      also when the handles it was obtained through are freed. */
  lemma {:induction false} HandleKeepsItsTree(k: Kernel, x: Session, calls: seq<Call>, r: Ref, path: seq<Ref>, o: Ref)
    requires Conforms(k) && Inv(x) && LegalRun(k, x, calls) && KeepsHandle(k, x, calls, r)
    requires Trace(x.mem.heap, multiset{r}, path, o)
    ensures var y := Run(k, x, calls);
      Trace(y.mem.heap, multiset{r}, path, o) && y.mem.heap[o].body == x.mem.heap[o].body
    decreases |calls|
  {
    if calls != [] {
      var (y, p) := Step(k, x, calls[0]);
      TreeSurvivesStep(x.mem, y.mem, Holders(y), r, path, o);
      HandleKeepsItsTree(k, y, calls[1..], r, path, o);
    }
  }

  lemma {:induction false} TreeSurvivesStep(s: State, t: State, c: multiset<Ref>, r: Ref, path: seq<Ref>, o: Ref)
    requires Balanced(t, c) && r in c && Evolves(s, t)
    requires Trace(s.heap, multiset{r}, path, o)
    ensures Trace(t.heap, multiset{r}, path, o) && t.heap[o].body == s.heap[o].body
  {
    if |path| == 1 {
      BalancedLive(t, c, r);
    } else {
      var q := path[|path| - 2];
      assert Trace(s.heap, multiset{r}, path[..|path| - 1], q);
      TreeSurvivesStep(s, t, c, r, path[..|path| - 1], q);
      BalancedFieldsLive(t, c, q, o);
      assert path == path[..|path| - 1] + [o];
    }
  }
}
