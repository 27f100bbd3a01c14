/** The Lean object heap seen from C: immutable objects with reference counts,
    `lean_inc`, the cascading `lean_dec`, and allocation.

    An object's fields are fixed when it is built and only name older objects, so a
    reference's number is a rank: fields always point to smaller numbers. */
module LeanHeap {

  type Ref = nat

  /** A `lean_object *`: `NULL`, a boxed scalar such as `Option.none`, or an object. */
  datatype Ptr = Null | Box(n: nat) | At(r: Ref)

  datatype Body = Str(text: string) | Ctor(tag: nat, fields: seq<Ptr>)

  datatype Object = Object(rc: nat, body: Body)

  type Heap = map<Ref, Object>

  /** `next` is the number the next allocated object receives. */
  datatype State = State(heap: Heap, next: Ref)

  function Fields(b: Body): seq<Ptr> {
    if b.Ctor? then b.fields else []
  }

  // ----- counting references -----

  function One(p: Ptr): multiset<Ref> {
    if p.At? then multiset{p.r} else multiset{}
  }

  function Refs(ps: seq<Ptr>): multiset<Ref> {
    if ps == [] then multiset{} else One(ps[0]) + Refs(ps[1..])
  }

  lemma {:induction false} RefsAppend(a: seq<Ptr>, b: seq<Ptr>)
    ensures Refs(a + b) == Refs(a) + Refs(b)
  {
    hide One;
    if a == [] {
      assert a + b == b;
    } else {
      RefsAppend(a[1..], b);
      assert (a + b)[1..] == a[1..] + b;
      SumAssociates(One(a[0]), Refs(a[1..]), Refs(b));
    }
  }

  lemma SumAssociates(a: multiset<Ref>, b: multiset<Ref>, c: multiset<Ref>)
    ensures a + (b + c) == a + b + c
  {
  }

  lemma {:induction false} RefsIn(ps: seq<Ptr>, r: Ref)
    ensures At(r) in ps <==> r in Refs(ps)
  {
    if ps != [] { RefsIn(ps[1..], r); }
  }

  /** References held by the fields of the live objects numbered below `n`. */
  function Inbound(h: Heap, n: nat): multiset<Ref> {
    if n == 0 then multiset{}
    else Inbound(h, n - 1) + (if n - 1 in h then Refs(Fields(h[n - 1].body)) else multiset{})
  }

  ghost predicate SameBodies(h: Heap, g: Heap, n: nat) {
    forall o: Ref :: o < n ==> (o in h <==> o in g) && (o in h ==> h[o].body == g[o].body)
  }

  lemma {:induction false} InboundSameBodies(h: Heap, g: Heap, n: nat)
    requires SameBodies(h, g, n)
    ensures Inbound(h, n) == Inbound(g, n)
  {
    if n > 0 { InboundSameBodies(h, g, n - 1); }
  }

  lemma {:induction false} InboundRemove(h: Heap, r: Ref, n: nat)
    requires r in h && r < n
    ensures Inbound(h, n) == Inbound(h - {r}, n) + Refs(Fields(h[r].body))
  {
    if n - 1 == r {
      InboundSameBodies(h, h - {r}, n - 1);
    } else {
      InboundRemove(h, r, n - 1);
    }
  }

  lemma {:induction false} InboundHolder(h: Heap, n: nat, r: Ref)
    ensures r in Inbound(h, n) <==> exists o: Ref :: o < n && o in h && At(r) in Fields(h[o].body)
  {
    hide Refs, Fields;
    if n > 0 {
      InboundHolder(h, n - 1, r);
      if n - 1 in h { RefsIn(Fields(h[n - 1].body), r); }
    }
  }

  // ----- balance -----

  function Count(h: Heap, r: Ref): nat {
    if r in h then h[r].rc else 0
  }

  /** Live objects have a positive count and fields that only name older objects. */
  ghost predicate WellFormed(s: State) {
    forall r: Ref :: r in s.heap ==>
      && r < s.next
      && s.heap[r].rc > 0
      && (forall p :: p in Fields(s.heap[r].body) ==> p != Null && (p.At? ==> p.r < r))
  }

  /** What `r`'s count holds beyond the references of live fields and of the pending decrements. */
  ghost function Surplus(s: State, todo: seq<Ptr>, r: Ref): int {
    Count(s.heap, r) - Inbound(s.heap, s.next)[r] - Refs(todo)[r]
  }

  /** Every count is exactly the references from live objects plus those held outside, `c`. */
  ghost predicate Balanced(s: State, c: multiset<Ref>) {
    WellFormed(s) && forall r: Ref :: Surplus(s, [], r) == c[r]
  }

  /** The heap can afford the decrements in `todo`. */
  ghost predicate Covers(s: State, todo: seq<Ptr>) {
    && WellFormed(s)
    && (forall p :: p in todo ==> p != Null)
    && forall r: Ref :: Surplus(s, todo, r) >= 0
  }

  lemma BalancedLive(s: State, c: multiset<Ref>, r: Ref)
    requires Balanced(s, c) && r in c
    ensures r in s.heap
  {
    assert Surplus(s, [], r) == c[r];
  }

  lemma BalancedFieldsLive(s: State, c: multiset<Ref>, o: Ref, r: Ref)
    requires Balanced(s, c) && o in s.heap && At(r) in Fields(s.heap[o].body)
    ensures r in s.heap
  {
    assert Surplus(s, [], r) == c[r];
    InboundHolder(s.heap, s.next, r);
  }

  lemma BalancedCovers(s: State, d: multiset<Ref>, todo: seq<Ptr>)
    requires Balanced(s, d + Refs(todo)) && Null !in todo
    ensures Covers(s, todo)
    ensures forall r: Ref :: Surplus(s, todo, r) == d[r]
  {
    forall r: Ref ensures Surplus(s, todo, r) == d[r] {
      assert Surplus(s, [], r) == (d + Refs(todo))[r];
    }
  }

  // ----- lean_inc -----

  predicate Usable(s: State, p: Ptr) {
    p != Null && (p.At? ==> p.r in s.heap)
  }

  function Inc(s: State, p: Ptr): State
    requires Usable(s, p)
  {
    if p.At? then s.(heap := s.heap[p.r := Object(s.heap[p.r].rc + 1, s.heap[p.r].body)]) else s
  }

  lemma IncSurplus(s: State, c: multiset<Ref>, p: Ptr, r: Ref)
    requires Balanced(s, c) && Usable(s, p)
    ensures Surplus(Inc(s, p), [], r) == (c + One(p))[r]
  {
    hide Inbound, Refs;
    InboundSameBodies(s.heap, Inc(s, p).heap, s.next);
    assert Surplus(s, [], r) == c[r];
  }

  lemma IncBalanced(s: State, c: multiset<Ref>, p: Ptr)
    requires Balanced(s, c) && Usable(s, p)
    ensures Balanced(Inc(s, p), c + One(p))
    ensures SameBodies(s.heap, Inc(s, p).heap, s.next)
  {
    hide Surplus, Inbound, Refs, One;
    forall r: Ref ensures Surplus(Inc(s, p), [], r) == (c + One(p))[r] {
      IncSurplus(s, c, p, r);
    }
  }

  // ----- allocation -----

  /** A new object whose fields are owned references the caller hands over. */
  function Alloc(s: State, b: Body): State {
    State(s.heap[s.next := Object(1, b)], s.next + 1)
  }

  lemma OwnedFieldsLive(s: State, d: multiset<Ref>, ps: seq<Ptr>)
    requires Balanced(s, d + Refs(ps))
    ensures forall p :: p in ps && p.At? ==> p.r in s.heap && p.r < s.next
  {
    hide Surplus;
    forall p | p in ps && p.At? ensures p.r in s.heap && p.r < s.next {
      RefsIn(ps, p.r);
      BalancedLive(s, d + Refs(ps), p.r);
    }
  }

  lemma InboundAlloc(s: State, b: Body)
    ensures Inbound(Alloc(s, b).heap, s.next + 1) == Inbound(s.heap, s.next) + Refs(Fields(b))
  {
    hide Refs, Fields;
    InboundSameBodies(s.heap, Alloc(s, b).heap, s.next);
  }

  lemma AllocSurplus(s: State, d: multiset<Ref>, b: Body, r: Ref)
    requires Balanced(s, d + Refs(Fields(b)))
    ensures Surplus(Alloc(s, b), [], r) == (d + multiset{s.next})[r]
  {
    hide Inbound, Refs, Fields;
    InboundAlloc(s, b);
    assert Surplus(s, [], r) == (d + Refs(Fields(b)))[r];
  }

  lemma AllocBalanced(s: State, d: multiset<Ref>, b: Body)
    requires Balanced(s, d + Refs(Fields(b))) && Null !in Fields(b)
    ensures Balanced(Alloc(s, b), d + multiset{s.next})
  {
    hide Refs, Surplus, Inbound;
    OwnedFieldsLive(s, d, Fields(b));
    forall r: Ref ensures Surplus(Alloc(s, b), [], r) == (d + multiset{s.next})[r] {
      AllocSurplus(s, d, b, r);
    }
  }

  // ----- lean_dec -----

  ghost function TotalRc(h: Heap, n: nat): nat {
    if n == 0 then 0 else TotalRc(h, n - 1) + Count(h, n - 1)
  }

  lemma {:induction false} TotalRcStep(h: Heap, g: Heap, n: nat, r: Ref)
    requires r < n && Count(g, r) < Count(h, r)
    requires forall o: Ref :: o != r ==> Count(g, o) == Count(h, o)
    ensures TotalRc(g, n) < TotalRc(h, n)
  {
    if n - 1 == r {
      TotalRcSame(h, g, n - 1);
    } else {
      TotalRcStep(h, g, n - 1, r);
    }
  }

  lemma {:induction false} TotalRcSame(h: Heap, g: Heap, n: nat)
    requires forall o: Ref :: o < n ==> Count(g, o) == Count(h, o)
    ensures TotalRc(g, n) == TotalRc(h, n)
  {
    if n > 0 { TotalRcSame(h, g, n - 1); }
  }

  lemma CoversLive(s: State, todo: seq<Ptr>)
    requires Covers(s, todo) && todo != [] && todo[0].At?
    ensures todo[0].r in s.heap
  {
    assert Surplus(s, todo, todo[0].r) >= 0;
  }

  /** One decrement: the last reference frees the object and queues its fields. */
  function DecStep(s: State, todo: seq<Ptr>): (State, seq<Ptr>)
    requires Covers(s, todo) && todo != []
  {
    if !todo[0].At? then (s, todo[1..])
    else
      CoversLive(s, todo);
      var o := s.heap[todo[0].r];
      if o.rc > 1 then
        (s.(heap := s.heap[todo[0].r := Object(o.rc - 1, o.body)]), todo[1..])
      else
        (s.(heap := s.heap - {todo[0].r}), Fields(o.body) + todo[1..])
  }

  /** What one decrement does. */
  ghost predicate StepsTo(s: State, todo: seq<Ptr>, t: State, todo': seq<Ptr>) {
    && (forall r: Ref :: Surplus(t, todo', r) == Surplus(s, todo, r))
    && t.next == s.next
    && (forall r: Ref :: r in t.heap ==> r in s.heap && t.heap[r].body == s.heap[r].body)
  }

  /** The count of a shared object goes down. */
  lemma SharedStep(s: State, todo: seq<Ptr>)
    requires Covers(s, todo) && todo != [] && todo[0].At? && todo[0].r in s.heap && s.heap[todo[0].r].rc > 1
    ensures var (t, todo') := DecStep(s, todo);
      StepsTo(s, todo, t, todo') && TotalRc(t.heap, t.next) < TotalRc(s.heap, s.next)
  {
    var (t, todo') := DecStep(s, todo);
    TotalRcStep(s.heap, t.heap, s.next, todo[0].r);
    InboundSameBodies(s.heap, t.heap, s.next);
  }

  /** The last reference: the object goes, and its fields are to be given up. */
  lemma FreeingStep(s: State, todo: seq<Ptr>)
    requires Covers(s, todo) && todo != [] && todo[0].At? && todo[0].r in s.heap && s.heap[todo[0].r].rc == 1
    ensures var (t, todo') := DecStep(s, todo);
      StepsTo(s, todo, t, todo') && TotalRc(t.heap, t.next) < TotalRc(s.heap, s.next)
  {
    var (t, todo') := DecStep(s, todo);
    var x := todo[0].r;
    TotalRcStep(s.heap, t.heap, s.next, x);
    InboundRemove(s.heap, x, s.next);
    RefsAppend(Fields(s.heap[x].body), todo[1..]);
  }

  lemma StepCovers(s: State, todo: seq<Ptr>)
    requires Covers(s, todo) && todo != []
    requires var (t, todo') := DecStep(s, todo); StepsTo(s, todo, t, todo')
    ensures var (t, todo') := DecStep(s, todo); Covers(t, todo')
  {
    hide Surplus, Inbound, Refs;
    var (t, todo') := DecStep(s, todo);
    if todo[0].At? { CoversLive(s, todo); }
    forall p | p in todo' ensures p != Null {
      assert p in todo || (todo[0].At? && p in Fields(s.heap[todo[0].r].body));
    }
    forall r: Ref ensures Surplus(t, todo', r) >= 0 {
      assert Surplus(s, todo, r) >= 0;
    }
  }

  lemma DecStepSurplus(s: State, todo: seq<Ptr>)
    requires Covers(s, todo) && todo != []
    ensures var (t, todo') := DecStep(s, todo);
      && Covers(t, todo')
      && StepsTo(s, todo, t, todo')
      && (if todo[0].At? then TotalRc(t.heap, t.next) < TotalRc(s.heap, s.next) else t == s && |todo'| < |todo|)
  {
    hide TotalRc;
    if todo[0].At? {
      CoversLive(s, todo);
      assert s.heap[todo[0].r].rc > 0;
      if s.heap[todo[0].r].rc > 1 { SharedStep(s, todo); } else { FreeingStep(s, todo); }
    }
    StepCovers(s, todo);
  }

  /** `lean_dec` on everything in `todo`, cascading through freed objects. */
  function Dec(s: State, todo: seq<Ptr>): State
    requires Covers(s, todo)
    decreases TotalRc(s.heap, s.next), |todo|
  {
    if todo == [] then s
    else
      DecStepSurplus(s, todo);
      var (t, todo') := DecStep(s, todo);
      Dec(t, todo')
  }

  lemma {:induction false} DecKeeps(s: State, todo: seq<Ptr>)
    requires Covers(s, todo)
    ensures var t := Dec(s, todo);
      && WellFormed(t) && t.next == s.next
      && (forall r: Ref :: Surplus(t, [], r) == Surplus(s, todo, r))
      && (forall r: Ref :: r in t.heap ==> r in s.heap && t.heap[r].body == s.heap[r].body)
    decreases TotalRc(s.heap, s.next), |todo|
  {
    if todo != [] {
      DecStepSurplus(s, todo);
      var (t, todo') := DecStep(s, todo);
      DecKeeps(t, todo');
      forall r: Ref ensures Surplus(Dec(s, todo), [], r) == Surplus(s, todo, r) {
        assert Surplus(t, todo', r) == Surplus(s, todo, r);
      }
    }
  }

  /** Giving up the references `todo` leaves exactly the counts of the remaining holders `d`. */
  lemma DecBalanced(s: State, todo: seq<Ptr>, d: multiset<Ref>)
    requires Balanced(s, d + Refs(todo)) && Null !in todo
    ensures Covers(s, todo)
    ensures var t := Dec(s, todo);
      && Balanced(t, d) && t.next == s.next
      && (forall r: Ref :: r in t.heap ==> r in s.heap && t.heap[r].body == s.heap[r].body)
  {
    BalancedCovers(s, d, todo);
    DecKeeps(s, todo);
    var t := Dec(s, todo);
    forall r: Ref ensures Surplus(t, [], r) == d[r] {
      assert Surplus(s, todo, r) == d[r];
    }
  }

  // ----- reference counting against tracing -----

  /** `path` leads from a root through fields of live objects to `r`. */
  ghost predicate Trace(h: Heap, roots: multiset<Ref>, path: seq<Ref>, r: Ref) {
    && path != [] && path[0] in roots && path[|path| - 1] == r
    && (forall i :: 0 <= i < |path| ==> path[i] in h)
    && (forall i :: 0 < i < |path| ==> At(path[i]) in Fields(h[path[i - 1]].body))
  }

  ghost predicate Reachable(h: Heap, roots: multiset<Ref>, r: Ref) {
    exists path :: Trace(h, roots, path, r)
  }

  /** A live object that nobody holds is a field of a newer one. */
  lemma HasParent(s: State, c: multiset<Ref>, r: Ref)
    requires Balanced(s, c) && r in s.heap && r !in c
    ensures exists o: Ref :: r < o < s.next && o in s.heap && At(r) in Fields(s.heap[o].body)
  {
    assert Surplus(s, [], r) == c[r];
    InboundHolder(s.heap, s.next, r);
  }

  lemma {:induction false} LiveIsReachable(s: State, c: multiset<Ref>, r: Ref)
    requires Balanced(s, c) && r in s.heap
    ensures Reachable(s.heap, c, r)
    decreases s.next - r
  {
    hide Surplus, Fields;
    if r in c {
      assert Trace(s.heap, c, [r], r);
    } else {
      HasParent(s, c, r);
      var o: Ref :| r < o < s.next && o in s.heap && At(r) in Fields(s.heap[o].body);
      LiveIsReachable(s, c, o);
      var path :| Trace(s.heap, c, path, o);
      assert Trace(s.heap, c, path + [r], r);
    }
  }

  /** A path of the old heap whose root is still held survives a release. */
  lemma {:induction false} TraceSurvives(h: Heap, t: State, d: multiset<Ref>, path: seq<Ref>, r: Ref)
    requires Balanced(t, d) && Trace(h, d, path, r)
    requires forall o: Ref :: o in t.heap ==> o in h && t.heap[o].body == h[o].body
    ensures r in t.heap
  {
    if |path| == 1 {
      BalancedLive(t, d, r);
    } else {
      var q := path[|path| - 2];
      assert Trace(h, d, path[..|path| - 1], q);
      TraceSurvives(h, t, d, path[..|path| - 1], q);
      BalancedFieldsLive(t, d, q, r);
    }
  }

  /** Cascading decrements are an exact garbage collection: what survives is what the
      remaining holders reach in the old heap, unchanged, each with the count of its holders. */
  lemma DecIsTracing(s: State, todo: seq<Ptr>, d: multiset<Ref>)
    requires Balanced(s, d + Refs(todo)) && Null !in todo
    ensures Covers(s, todo)
    ensures var t := Dec(s, todo);
      && Balanced(t, d)
      && (forall r: Ref :: r in t.heap <==> Reachable(s.heap, d, r))
      && (forall r: Ref :: r in t.heap ==> t.heap[r].body == s.heap[r].body)
  {
    DecBalanced(s, todo, d);
    var t := Dec(s, todo);
    forall r: Ref ensures r in t.heap <==> Reachable(s.heap, d, r) {
      if r in t.heap {
        LiveIsReachable(t, d, r);
        var path :| Trace(t.heap, d, path, r);
        assert Trace(s.heap, d, path, r);
      }
      if Reachable(s.heap, d, r) {
        var path :| Trace(s.heap, d, path, r);
        TraceSurvives(s.heap, t, d, path, r);
      }
    }
  }

  /** Nothing held outside means nothing live: counts cannot keep a cycle, as there is none. */
  lemma NoHolderNoObject(s: State)
    requires Balanced(s, multiset{})
    ensures s.heap == map[]
  {
    forall r: Ref ensures r !in s.heap {
      if r in s.heap { LiveIsReachable(s, multiset{}, r); }
    }
  }
}
