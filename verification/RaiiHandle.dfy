/** The C++ wrapper that owns one raw handle: constructors, moves, `release`, `reset` and
    the destructor, and where every handle reference is after any interleaving of them. */
module RaiiHandle {

  /** A raw handle; 0 is `nullptr`. The same handle may be acquired several times. */
  type Raw = nat

  function One(h: Raw): multiset<Raw> {
    if h == 0 then multiset{} else multiset{h}
  }

  // ----- the wrapper as the header has it -----

  /** What `l4yaml_free` has been called on. */
  class FreeLog {
    ghost var freed: multiset<Raw>

    constructor ()
      ensures freed == multiset{}
    {
      freed := multiset{};
    }

    method Free(h: Raw)
      modifies this
      ensures freed == old(freed) + One(h)
    {
      freed := freed + One(h);
    }
  }

  class L4YAMLHandle {
    var handle: Raw

    constructor (h: Raw)
      ensures handle == h
    {
      handle := h;
    }

    constructor Move(other: L4YAMLHandle)
      modifies other
      ensures handle == old(other.handle) && other.handle == 0
    {
      handle := other.handle;
      new;
      other.handle := 0;
    }

    method Destroy(log: FreeLog)
      modifies log
      ensures log.freed == old(log.freed) + One(handle)
    {
      if handle != 0 {
        log.Free(handle);
      }
    }

    /** Assigning a wrapper to itself changes nothing. */
    method MoveAssign(other: L4YAMLHandle, log: FreeLog)
      modifies this, other, log
      ensures this == other ==> handle == old(handle) && log.freed == old(log.freed)
      ensures this != other ==> handle == old(other.handle) && other.handle == 0
      ensures this != other ==> log.freed == old(log.freed) + One(old(handle))
    {
      if this != other {
        if handle != 0 {
          log.Free(handle);
        }
        handle := other.handle;
        other.handle := 0;
      }
    }

    method Release() returns (h: Raw)
      modifies this
      ensures h == old(handle) && handle == 0
    {
      h := handle;
      handle := 0;
    }

    method Reset(h: Raw, log: FreeLog)
      modifies this, log
      ensures handle == h && log.freed == old(log.freed) + One(old(handle))
    {
      if handle != 0 {
        log.Free(handle);
      }
      handle := h;
    }
  }

  // ----- interleavings -----

  /** `wrappers` are the live wrapper objects by number; `loose` are references the client
      holds in plain variables; `acquired` counts every reference the C API ever returned. */
  datatype World = World(
    wrappers: map<nat, Raw>, next: nat, loose: multiset<Raw>, acquired: multiset<Raw>, freed: multiset<Raw>)

  datatype Op =
    | Acquire(h: Raw)
    | Construct(h: Raw)
    | MoveConstruct(src: nat)
    | MoveAssign(dst: nat, src: nat)
    | Release(w: nat)
    | Reset(w: nat, h: Raw)
    | Destroy(w: nat)

  /** Wrappers named by the operation exist, and a handle put in a wrapper is one the client holds. */
  predicate Enabled(x: World, op: Op) {
    WrappersExist(x, op) &&
    match op
    case Construct(h) => h == 0 || h in x.loose
    case Reset(_, h) => h == 0 || h in x.loose
    case _ => true
  }

  predicate WrappersExist(x: World, op: Op) {
    match op
    case Acquire(_) | Construct(_) => true
    case MoveConstruct(src) => src in x.wrappers
    case MoveAssign(dst, src) => dst in x.wrappers && src in x.wrappers
    case Release(w) => w in x.wrappers
    case Reset(w, _) => w in x.wrappers
    case Destroy(w) => w in x.wrappers
  }

  function Step(x: World, op: Op): World
    requires WrappersExist(x, op)
  {
    match op
    case Acquire(h) => x.(loose := x.loose + One(h), acquired := x.acquired + One(h))
    case Construct(h) =>
      x.(wrappers := x.wrappers[x.next := h], next := x.next + 1, loose := x.loose - One(h))
    case MoveConstruct(src) =>
      x.(wrappers := x.wrappers[x.next := x.wrappers[src]][src := 0], next := x.next + 1)
    case MoveAssign(dst, src) =>
      if dst == src then x
      else x.(wrappers := x.wrappers[dst := x.wrappers[src]][src := 0], freed := x.freed + One(x.wrappers[dst]))
    case Release(w) => x.(wrappers := x.wrappers[w := 0], loose := x.loose + One(x.wrappers[w]))
    case Reset(w, h) =>
      x.(wrappers := x.wrappers[w := h], loose := x.loose - One(h), freed := x.freed + One(x.wrappers[w]))
    case Destroy(w) => x.(wrappers := x.wrappers - {w}, freed := x.freed + One(x.wrappers[w]))
  }

  /** How many of the wrappers numbered below `n` hold `h`. */
  function Held(m: map<nat, Raw>, n: nat, h: Raw): nat {
    if n == 0 then 0 else Held(m, n - 1, h) + (if n - 1 in m && m[n - 1] == h then 1 else 0)
  }

  lemma {:induction false} HeldSame(m: map<nat, Raw>, m': map<nat, Raw>, n: nat, h: Raw)
    requires forall i: nat :: i < n ==> (i in m <==> i in m') && (i in m ==> m[i] == m'[i])
    ensures Held(m, n, h) == Held(m', n, h)
  {
    if n > 0 { HeldSame(m, m', n - 1, h); }
  }

  lemma {:induction false} HeldRemove(m: map<nat, Raw>, n: nat, w: nat, h: Raw)
    requires w in m && w < n
    ensures Held(m, n, h) == Held(m - {w}, n, h) + (if m[w] == h then 1 else 0)
  {
    if n - 1 == w {
      HeldSame(m, m - {w}, n - 1, h);
    } else {
      HeldRemove(m, n - 1, w, h);
    }
  }

  lemma HeldPut(m: map<nat, Raw>, n: nat, w: nat, v: Raw, h: Raw)
    requires w in m && w < n
    ensures Held(m[w := v], n, h) + (if m[w] == h then 1 else 0) == Held(m, n, h) + (if v == h then 1 else 0)
  {
    HeldRemove(m, n, w, h);
    HeldRemove(m[w := v], n, w, h);
    assert m[w := v] - {w} == m - {w};
  }

  /** References to `h` acquired beyond those that are loose, in a wrapper, or freed. */
  ghost function Missing(x: World, h: Raw): int {
    x.acquired[h] - x.loose[h] - Held(x.wrappers, x.next, h) - x.freed[h]
  }

  /** Every acquired reference is in exactly one place: nothing is lost or freed twice. */
  ghost predicate Conserved(x: World) {
    && (forall w: nat :: w in x.wrappers ==> w < x.next)
    && forall h: Raw :: h != 0 ==> Missing(x, h) == 0
  }

  lemma MoveConstructKeepsMissing(x: World, src: nat, h: Raw)
    requires Conserved(x) && src in x.wrappers && h != 0
    ensures Missing(Step(x, MoveConstruct(src)), h) == Missing(x, h)
  {
    var m := x.wrappers[x.next := x.wrappers[src]];
    HeldSame(x.wrappers, m, x.next, h);
    HeldPut(m, x.next + 1, src, 0, h);
  }

  lemma MoveAssignKeepsMissing(x: World, dst: nat, src: nat, h: Raw)
    requires Conserved(x) && dst in x.wrappers && src in x.wrappers && h != 0
    ensures Missing(Step(x, MoveAssign(dst, src)), h) == Missing(x, h)
  {
    if dst != src {
      HeldPut(x.wrappers, x.next, dst, x.wrappers[src], h);
      HeldPut(x.wrappers[dst := x.wrappers[src]], x.next, src, 0, h);
    }
  }

  lemma ConstructKeepsMissing(x: World, v: Raw, h: Raw)
    requires Conserved(x) && (v == 0 || v in x.loose) && h != 0
    ensures Missing(Step(x, Construct(v)), h) == Missing(x, h)
  {
    HeldSame(x.wrappers, x.wrappers[x.next := v], x.next, h);
  }

  lemma ResetKeepsMissing(x: World, w: nat, v: Raw, h: Raw)
    requires Conserved(x) && w in x.wrappers && (v == 0 || v in x.loose) && h != 0
    ensures Missing(Step(x, Reset(w, v)), h) == Missing(x, h)
  {
    HeldPut(x.wrappers, x.next, w, v, h);
  }

  lemma StepKeepsMissing(x: World, op: Op, h: Raw)
    requires Conserved(x) && Enabled(x, op) && h != 0
    ensures Missing(Step(x, op), h) == 0
  {
    assert Missing(x, h) == 0;
    match op {
      case Acquire(_) =>
      case Construct(v) => ConstructKeepsMissing(x, v, h);
      case MoveConstruct(src) => MoveConstructKeepsMissing(x, src, h);
      case MoveAssign(dst, src) => MoveAssignKeepsMissing(x, dst, src, h);
      case Release(w) => HeldPut(x.wrappers, x.next, w, 0, h);
      case Reset(w, v) => ResetKeepsMissing(x, w, v, h);
      case Destroy(w) => HeldRemove(x.wrappers, x.next, w, h);
    }
  }

  lemma StepConserves(x: World, op: Op)
    requires Conserved(x) && Enabled(x, op)
    ensures Conserved(Step(x, op))
  {
    forall h: Raw | h != 0 ensures Missing(Step(x, op), h) == 0 {
      StepKeepsMissing(x, op, h);
    }
  }

  const START := World(map[], 0, multiset{}, multiset{}, multiset{})

  predicate EnabledRun(x: World, ops: seq<Op>)
    decreases |ops|
  {
    ops == [] || (Enabled(x, ops[0]) && EnabledRun(Step(x, ops[0]), ops[1..]))
  }

  function Run(x: World, ops: seq<Op>): World
    requires EnabledRun(x, ops)
    decreases |ops|
  {
    if ops == [] then x else Run(Step(x, ops[0]), ops[1..])
  }

  lemma {:induction false} RunConserves(x: World, ops: seq<Op>)
    requires Conserved(x) && EnabledRun(x, ops)
    ensures Conserved(Run(x, ops))
    decreases |ops|
  {
    if ops != [] {
      StepConserves(x, ops[0]);
      RunConserves(Step(x, ops[0]), ops[1..]);
    }
  }

  /** A handle acquired once is, after any run, in exactly one place: loose, in one wrapper, or freed. */
  lemma OwnedOnce(ops: seq<Op>, h: Raw)
    requires EnabledRun(START, ops) && h != 0 && Run(START, ops).acquired[h] == 1
    ensures var x := Run(START, ops);
      && x.loose[h] + Held(x.wrappers, x.next, h) + x.freed[h] == 1
      && forall w: nat :: w in x.wrappers && x.wrappers[w] == h ==>
           && h !in x.freed && h !in x.loose
           && (forall v: nat :: v in x.wrappers && v != w ==> x.wrappers[v] != h)
  {
    RunConserves(START, ops);
    var x := Run(START, ops);
    assert Missing(x, h) == 0;
    forall w: nat | w in x.wrappers && x.wrappers[w] == h
      ensures h !in x.freed && h !in x.loose
      ensures forall v: nat :: v in x.wrappers && v != w ==> x.wrappers[v] != h
    {
      HeldRemove(x.wrappers, x.next, w, h);
      forall v: nat | v in x.wrappers && v != w ensures x.wrappers[v] != h {
        HeldRemove(x.wrappers - {w}, x.next, v, h);
      }
    }
  }

  /** With every wrapper destroyed and nothing loose, each handle was freed exactly as often
      as it was acquired. */
  lemma AllFreed(ops: seq<Op>, h: Raw)
    requires EnabledRun(START, ops) && h != 0
    requires Run(START, ops).wrappers == map[] && Run(START, ops).loose == multiset{}
    ensures Run(START, ops).freed[h] == Run(START, ops).acquired[h]
  {
    RunConserves(START, ops);
    assert Missing(Run(START, ops), h) == 0;
    NothingHeld(Run(START, ops).next, h);
  }

  lemma {:induction false} NothingHeld(n: nat, h: Raw)
    ensures Held(map[], n, h) == 0
  {
    if n > 0 { NothingHeld(n - 1, h); }
  }

  /** `reset` takes any argument; the books balance afterwards exactly when the client holds
      that handle loose (or it is null). */
  lemma ResetSoundIffHeld(x: World, w: nat, v: Raw)
    requires Conserved(x) && w in x.wrappers
    ensures Conserved(Step(x, Reset(w, v))) <==> (v == 0 || v in x.loose)
  {
    if v == 0 || v in x.loose {
      StepConserves(x, Reset(w, v));
    } else {
      HeldPut(x.wrappers, x.next, w, v, v);
      assert Missing(x, v) == 0;
      assert Missing(Step(x, Reset(w, v)), v) < 0;
    }
  }

  /** Resetting a wrapper to the handle it already holds frees that handle twice. */
  lemma SelfResetFreesTwice(x: World, w: nat)
    requires Conserved(x) && w in x.wrappers && x.wrappers[w] != 0 && x.acquired[x.wrappers[w]] == 1
    ensures var y := Step(Step(x, Reset(w, x.wrappers[w])), Destroy(w));
      y.freed[x.wrappers[w]] == 2
  {
    HeldRemove(x.wrappers, x.next, w, x.wrappers[w]);
    assert Missing(x, x.wrappers[w]) == 0;
  }

  // ----- a program over the wrappers -----

  /** Live wrapper objects by number, with what the client holds loose. */
  class Program {
    var objects: map<nat, L4YAMLHandle>
    var next: nat
    ghost var loose: multiset<Raw>
    ghost var acquired: multiset<Raw>
    const log: FreeLog

    ghost predicate Valid()
      reads this
    {
      && (forall w: nat :: w in objects ==> w < next)
      && (forall v: nat, w: nat :: v in objects && w in objects && v != w ==> objects[v] != objects[w])
    }

    ghost function Current(): World
      reads this, objects.Values, log
    {
      World(Wrapped(), next, loose, acquired, log.freed)
    }

    ghost function Wrapped(): map<nat, Raw>
      reads this, objects.Values
    {
      map w | w in objects :: objects[w].handle
    }

    constructor ()
      ensures Valid() && Current() == START && fresh(log)
    {
      objects, next, loose, acquired := map[], 0, multiset{}, multiset{};
      log := new FreeLog();
    }

    method DoAcquire(h: Raw)
      requires Valid() && WrappersExist(Current(), Acquire(h))
      modifies this
      ensures Valid() && Current() == Step(old(Current()), Acquire(h))
      ensures fresh(objects.Values - old(objects.Values))
    {
      loose, acquired := loose + One(h), acquired + One(h);
    }

    method DoConstruct(h: Raw)
      requires Valid() && WrappersExist(Current(), Construct(h))
      modifies this
      ensures Valid() && Current() == Step(old(Current()), Construct(h))
      ensures fresh(objects.Values - old(objects.Values))
    {
      hide One;
      var w := new L4YAMLHandle(h);
      objects, next := objects[next := w], next + 1;
      loose := loose - One(h);
      assert Wrapped() == old(Wrapped())[old(next) := h];
    }

    method DoMoveConstruct(src: nat)
      requires Valid() && WrappersExist(Current(), MoveConstruct(src))
      modifies this, objects.Values
      ensures Valid() && Current() == Step(old(Current()), MoveConstruct(src))
      ensures fresh(objects.Values - old(objects.Values))
    {
      hide One;
      var w := new L4YAMLHandle.Move(objects[src]);
      objects, next := objects[next := w], next + 1;
      assert Wrapped() == old(Wrapped())[old(next) := old(objects[src].handle)][src := 0];
    }

    method DoMoveAssign(dst: nat, src: nat)
      requires Valid() && WrappersExist(Current(), MoveAssign(dst, src))
      modifies this, objects.Values, log
      ensures Valid() && Current() == Step(old(Current()), MoveAssign(dst, src))
      ensures fresh(objects.Values - old(objects.Values))
    {
      hide One;
      objects[dst].MoveAssign(objects[src], log);
      assert dst != src ==> Wrapped() == old(Wrapped())[dst := old(objects[src].handle)][src := 0];
      assert dst == src ==> Wrapped() == old(Wrapped());
    }

    method DoRelease(w: nat)
      requires Valid() && WrappersExist(Current(), Release(w))
      modifies this, objects.Values
      ensures Valid() && Current() == Step(old(Current()), Release(w))
      ensures fresh(objects.Values - old(objects.Values))
    {
      hide One;
      var h := objects[w].Release();
      loose := loose + One(h);
      assert Wrapped() == old(Wrapped())[w := 0];
    }

    method DoReset(w: nat, h: Raw)
      requires Valid() && WrappersExist(Current(), Reset(w, h))
      modifies this, objects.Values, log
      ensures Valid() && Current() == Step(old(Current()), Reset(w, h))
      ensures fresh(objects.Values - old(objects.Values))
    {
      hide One;
      objects[w].Reset(h, log);
      loose := loose - One(h);
      assert Wrapped() == old(Wrapped())[w := h];
    }

    method DoDestroy(w: nat)
      requires Valid() && WrappersExist(Current(), Destroy(w))
      modifies this, log
      ensures Valid() && Current() == Step(old(Current()), Destroy(w))
      ensures fresh(objects.Values - old(objects.Values))
    {
      hide One;
      objects[w].Destroy(log);
      objects := objects - {w};
      assert Wrapped() == old(Wrapped()) - {w};
    }

    /** One operation, by the wrappers' own methods. */
    method Do(op: Op)
      requires Valid() && WrappersExist(Current(), op)
      modifies this, objects.Values, log
      ensures Valid() && Current() == Step(old(Current()), op)
      ensures fresh(objects.Values - old(objects.Values))
    {
      hide Step, Current, Valid;
      match op {
        case Acquire(h) => DoAcquire(h);
        case Construct(h) => DoConstruct(h);
        case MoveConstruct(src) => DoMoveConstruct(src);
        case MoveAssign(dst, src) => DoMoveAssign(dst, src);
        case Release(w) => DoRelease(w);
        case Reset(w, h) => DoReset(w, h);
        case Destroy(w) => DoDestroy(w);
      }
    }

    /** Any program of enabled operations. */
    method Execute(ops: seq<Op>)
      requires Valid() && EnabledRun(Current(), ops)
      modifies this, objects.Values, log
      ensures Valid() && Current() == Run(old(Current()), ops)
    {
      for i := 0 to |ops|
        invariant Valid() && EnabledRun(Current(), ops[i..])
        invariant Run(Current(), ops[i..]) == Run(old(Current()), ops)
        invariant fresh(objects.Values - old(objects.Values))
      {
        assert ops[i..][1..] == ops[i + 1..];
        Do(ops[i]);
      }
    }
  }
}
