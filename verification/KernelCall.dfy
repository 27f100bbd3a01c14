/** What a call into a Lean `@[export]` function does to the heap: it consumes its
    arguments and hands back an owned result. The kernel itself is a parameter: any
    function that answers requests within that convention. */
module KernelCall {
  import opened LeanHeap

  datatype Op =
    | ParseSafe(preset: nat) | ParseSingleSafe(preset: nat) | ParseWithConfig | ParseLimits
    | ResultIsOk | ResultGetError | ResultDocs | ResultValue
    | DocsCount | DocsGet(i: nat) | DocRoot
    | ValueKind | ScalarStyle | AsString | SeqLength | SeqGet(i: nat)
    | MapLength | MapKey(i: nat) | MapVal(i: nat) | LookupRaw | TagRaw | AnchorRaw
    | DumpRaw | DumpDocsRaw | DumpWithConfig
    | ConfigIsOk | ConfigGetError | ConfigGetLimits

  datatype Returns = Number | Handle | Text | MaybeHandle | MaybeText

  function ReturnsOf(op: Op): Returns {
    match op
    case ResultIsOk | DocsCount | ValueKind | ScalarStyle | SeqLength | MapLength | ConfigIsOk => Number
    case ResultGetError | AsString | DumpRaw | DumpDocsRaw | DumpWithConfig | ConfigGetError => Text
    case LookupRaw => MaybeHandle
    case TagRaw | AnchorRaw => MaybeText
    case _ => Handle
  }

  datatype Request = Request(op: Op, args: seq<Ptr>)

  /** New objects, oldest first (fields may name live objects and earlier new ones), and the result. */
  datatype Outcome = Outcome(built: seq<Body>, result: Ptr)

  type Kernel = (State, Request) -> Outcome

  // ----- building the outcome -----

  predicate AllUsable(s: State, ps: seq<Ptr>) {
    forall p :: p in ps ==> Usable(s, p)
  }

  function IncAll(s: State, ps: seq<Ptr>): (t: State)
    requires AllUsable(s, ps)
    decreases |ps|
  {
    if ps == [] then s else
      assert Usable(s, ps[0]) && forall p :: p in ps[1..] ==> p in ps;
      IncAll(Inc(s, ps[0]), ps[1..])
  }

  lemma {:induction false} IncAllBalanced(s: State, c: multiset<Ref>, ps: seq<Ptr>)
    requires Balanced(s, c) && AllUsable(s, ps)
    ensures Balanced(IncAll(s, ps), c + Refs(ps))
    ensures Evolves(s, IncAll(s, ps)) && IncAll(s, ps).next == s.next
    decreases |ps|
  {
    hide Balanced, One;
    if ps == [] {
      assert c + Refs(ps) == c;
    } else {
      IncBalanced(s, c, ps[0]);
      assert forall p :: p in ps[1..] ==> p in ps;
      IncAllBalanced(Inc(s, ps[0]), c + One(ps[0]), ps[1..]);
      SumAssociates(c, One(ps[0]), Refs(ps[1..]));
    }
  }

  /** Surviving objects are unchanged, and numbers are never reused. */
  ghost predicate Evolves(s: State, t: State) {
    && s.next <= t.next
    && (forall r: Ref :: r in t.heap && r in s.heap ==> t.heap[r].body == s.heap[r].body)
    && (forall r: Ref :: r in t.heap && r !in s.heap ==> s.next <= r)
  }

  lemma EvolvesTrans(s: State, t: State, u: State)
    requires WellFormed(s) && WellFormed(t) && Evolves(s, t) && Evolves(t, u)
    ensures Evolves(s, u)
  {
  }

  /** Builds one object sharing its fields; the new object starts with one temporary holder. */
  function Share(s: State, b: Body): State
    requires AllUsable(s, Fields(b))
  {
    Alloc(IncAll(s, Fields(b)), b)
  }

  lemma ShareBalanced(s: State, c: multiset<Ref>, b: Body)
    requires Balanced(s, c) && AllUsable(s, Fields(b))
    ensures Balanced(Share(s, b), c + multiset{s.next})
    ensures Evolves(s, Share(s, b)) && Share(s, b).next == s.next + 1
  {
    IncAllBalanced(s, c, Fields(b));
    AllocBalanced(IncAll(s, Fields(b)), c, b);
  }

  predicate Buildable(s: State, built: seq<Body>)
    decreases |built|
  {
    built == [] || (AllUsable(s, Fields(built[0])) && Buildable(Share(s, built[0]), built[1..]))
  }

  function Build(s: State, built: seq<Body>): State
    requires Buildable(s, built)
    decreases |built|
  {
    if built == [] then s else Build(Share(s, built[0]), built[1..])
  }

  function Temporaries(next: Ref, count: nat): seq<Ptr>
    decreases count
  {
    if count == 0 then [] else [At(next)] + Temporaries(next + 1, count - 1)
  }

  lemma {:induction false} BuildBalanced(s: State, c: multiset<Ref>, built: seq<Body>)
    requires Balanced(s, c) && Buildable(s, built)
    ensures Balanced(Build(s, built), c + Refs(Temporaries(s.next, |built|)))
    ensures Evolves(s, Build(s, built)) && Null !in Temporaries(s.next, |built|)
    decreases |built|
  {
    if built != [] {
      var t := Share(s, built[0]);
      ShareBalanced(s, c, built[0]);
      BuildBalanced(t, c + multiset{s.next}, built[1..]);
      var rest := Temporaries(t.next, |built| - 1);
      assert Temporaries(s.next, |built|) == [At(s.next)] + rest;
      assert ([At(s.next)] + rest)[1..] == rest;
      assert c + multiset{s.next} + Refs(rest) == c + Refs(Temporaries(s.next, |built|));
      EvolvesTrans(s, t, Build(s, built));
    }
  }

  // ----- the convention -----

  /** `lean_obj_tag`: a boxed scalar is its own tag. */
  function Tag(s: State, p: Ptr): nat
    requires p.Box? || (p.At? && p.r in s.heap && s.heap[p.r].body.Ctor?)
  {
    if p.Box? then p.n else s.heap[p.r].body.tag
  }

  predicate IsText(s: State, p: Ptr) {
    p.At? && p.r in s.heap && s.heap[p.r].body.Str?
  }

  /** `Option.some v`: tag 1 and one field. `Option.none` is the boxed scalar 0. */
  predicate IsSome(s: State, p: Ptr) {
    && p.At? && p.r in s.heap && s.heap[p.r].body.Ctor?
    && s.heap[p.r].body.tag == 1 && |s.heap[p.r].body.fields| == 1
  }

  predicate HasShape(s: State, kind: Returns, p: Ptr) {
    match kind
    case Number => p.Box?
    case Handle => true
    case Text => IsText(s, p)
    case MaybeHandle => p == Box(0) || IsSome(s, p)
    case MaybeText => p == Box(0) || (IsSome(s, p) && IsText(s, s.heap[p.r].body.fields[0]))
  }

  ghost predicate FollowsConvention(s: State, op: Op, o: Outcome) {
    && Buildable(s, o.built)
    && var t := Build(s, o.built);
    && Usable(t, o.result) && HasShape(t, ReturnsOf(op), o.result)
  }

  ghost predicate Conforms(k: Kernel) {
    forall s: State, q: Request {:trigger k(s, q)} ::
      Covers(s, q.args) ==> FollowsConvention(s, q.op, k(s, q))
  }

  /** The convention can be met: a kernel that answers every request with an empty result. */
  function EmptyAnswer(s: State, q: Request): Outcome {
    if ReturnsOf(q.op) == Text then Outcome([Str("")], At(s.next)) else Outcome([], Box(0))
  }

  lemma EmptyAnswerConforms()
    ensures Conforms(EmptyAnswer)
  {
    forall s: State, q: Request ensures FollowsConvention(s, q.op, EmptyAnswer(s, q)) {
      assert Fields(Str("")) == [];
      assert Share(s, Str("")) == Alloc(s, Str(""));
      assert [Str("")][1..] == [];
      assert Buildable(Alloc(s, Str("")), []) && Build(Alloc(s, Str("")), []) == Alloc(s, Str(""));
      assert Buildable(s, [Str("")]) && Build(s, [Str("")]) == Alloc(s, Str(""));
    }
  }

  // ----- the call -----

  /** The external holders of `s` beyond the references in `todo`. */
  ghost function Others(s: State, todo: seq<Ptr>, n: nat): (d: multiset<Ref>)
    requires Covers(s, todo)
    ensures forall r: Ref :: d[r] == if r < n then Surplus(s, todo, r) else 0
  {
    if n == 0 then multiset{}
    else
      assert Surplus(s, todo, n - 1) >= 0;
      Others(s, todo, n - 1)[n - 1 := Surplus(s, todo, n - 1)]
  }

  lemma CoversBalanced(s: State, todo: seq<Ptr>)
    requires Covers(s, todo)
    ensures Balanced(s, Others(s, todo, s.next) + Refs(todo))
  {
    var d := Others(s, todo, s.next);
    forall r: Ref ensures Surplus(s, [], r) == (d + Refs(todo))[r] {
      assert Surplus(s, todo, r) >= 0;
    }
  }

  lemma RegroupHolders(d: multiset<Ref>, a: multiset<Ref>, b: multiset<Ref>, c: multiset<Ref>)
    ensures d + a + b + c == d + c + (b + a)
  {
  }

  lemma IncEvolves(s: State, p: Ptr)
    requires Usable(s, p)
    ensures Evolves(s, Inc(s, p))
  {
  }

  lemma InvokeAffordable(s: State, args: seq<Ptr>, o: Outcome, d: multiset<Ref>)
    requires Balanced(s, d + Refs(args)) && Null !in args
    requires Buildable(s, o.built) && Usable(Build(s, o.built), o.result)
    ensures var u := Inc(Build(s, o.built), o.result);
      && Balanced(u, d + One(o.result) + Refs(Temporaries(s.next, |o.built|) + args))
      && Null !in Temporaries(s.next, |o.built|) + args
      && Evolves(s, u) && WellFormed(Build(s, o.built))
  {
    BuildBalanced(s, d + Refs(args), o.built);
    var t := Build(s, o.built);
    var temps := Temporaries(s.next, |o.built|);
    IncBalanced(t, d + Refs(args) + Refs(temps), o.result);
    RefsAppend(temps, args);
    RegroupHolders(d, Refs(args), Refs(temps), One(o.result));
    IncEvolves(t, o.result);
    EvolvesTrans(s, t, Inc(t, o.result));
  }

  /** Builds, takes a reference to the result, then drops the temporaries and the arguments. */
  function Invoke(k: Kernel, s: State, op: Op, args: seq<Ptr>): (State, Ptr)
    requires Conforms(k) && Covers(s, args)
  {
    var q := Request(op, args);
    var o := k(s, q);
    assert FollowsConvention(s, q.op, o);
    CoversBalanced(s, args);
    InvokeAffordable(s, args, o, Others(s, args, s.next));
    DecBalanced(Inc(Build(s, o.built), o.result), Temporaries(s.next, |o.built|) + args,
                Others(s, args, s.next) + One(o.result));
    (Dec(Inc(Build(s, o.built), o.result), Temporaries(s.next, |o.built|) + args), o.result)
  }

  /** Arguments consumed, result owned, everything else held as before. */
  lemma InvokeBalanced(k: Kernel, s: State, op: Op, args: seq<Ptr>, d: multiset<Ref>)
    requires Conforms(k) && Balanced(s, d + Refs(args)) && Null !in args
    ensures Covers(s, args)
    ensures var (t, p) := Invoke(k, s, op, args);
      && Balanced(t, d + One(p)) && Usable(t, p) && HasShape(t, ReturnsOf(op), p) && Evolves(s, t)
  {
    hide Balanced, HasShape, One, Refs, Surplus;
    BalancedCovers(s, d, args);
    var q := Request(op, args);
    var o := k(s, q);
    assert FollowsConvention(s, q.op, o);
    InvokeAffordable(s, args, o, d);
    var b := Build(s, o.built);
    var u := Inc(b, o.result);
    DecBalanced(u, Temporaries(s.next, |o.built|) + args, d + One(o.result));
    var (t, p) := Invoke(k, s, op, args);
    assert t == Dec(u, Temporaries(s.next, |o.built|) + args);
    EvolvesTrans(s, u, t);
    ShapeSurvives(b, t, d, p, ReturnsOf(op));
  }

  lemma ShapeSurvives(b: State, t: State, d: multiset<Ref>, p: Ptr, kind: Returns)
    requires Usable(b, p) && HasShape(b, kind, p) && Balanced(t, d + One(p))
    requires forall r: Ref :: r in t.heap && r in b.heap ==> t.heap[r].body == b.heap[r].body
    ensures Usable(t, p) && HasShape(t, kind, p)
  {
    if p.At? {
      BalancedLive(t, d + One(p), p.r);
      if IsSome(b, p) && b.heap[p.r].body.fields[0].At? {
        BalancedFieldsLive(t, d + One(p), p.r, b.heap[p.r].body.fields[0].r);
      }
    }
  }
}
