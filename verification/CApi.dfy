/** The shim as the C file runs it: reference counts and the thread-local slot are
    overwritten in place. Each method is the step of the same call in `Shim`. */
module CApi {
  import opened LeanHeap
  import opened KernelCall
  import opened Shim

  /** One call of the C API: what it returned, and the text of a returned string. */
  datatype Exchange = Exchange(call: Call, answer: Ptr, text: string)

  class Library {
    const kernel: Kernel
    var heap: Heap
    var next: Ref
    var tlsLastString: Ptr
    ghost var owned: multiset<Ref>
    /** Every call so far, oldest first. */
    ghost var log: seq<Exchange>

    function Mem(): State
      reads this
    {
      State(heap, next)
    }

    ghost function Current(): Session
      reads this
    {
      Session(Mem(), tlsLastString, owned)
    }

    /** What a client reads through a returned string. */
    ghost function TextAt(p: Ptr): string
      reads this
    {
      if IsText(Mem(), p) then heap[p.r].body.text else ""
    }

    ghost predicate Valid()
      reads this
    {
      Conforms(kernel) && Inv(Current())
    }

    constructor (k: Kernel)
      requires Conforms(k)
      ensures Valid() && Current() == Start() && kernel == k && log == []
    {
      kernel := k;
      heap, next, tlsLastString, owned, log := map[], 0, Null, multiset{}, [];
      new;
      assert Current() == Start();
    }

    // ----- runtime primitives -----

    method LeanInc(p: Ptr)
      requires Usable(Mem(), p)
      modifies this`heap
      ensures Mem() == Inc(old(Mem()), p)
    {
      if p.At? {
        heap := heap[p.r := heap[p.r].(rc := heap[p.r].rc + 1)];
      }
    }

    method LeanDec(p: Ptr)
      requires Covers(Mem(), [p])
      modifies this`heap
      ensures Mem() == Dec(old(Mem()), [p])
    {
      var todo := [p];
      while todo != []
        invariant next == old(next)
        invariant Covers(Mem(), todo) && Dec(Mem(), todo) == Dec(old(Mem()), [p])
        decreases TotalRc(heap, next), |todo|
      {
        DecStepSurplus(Mem(), todo);
        var q := todo[0];
        if q.At? {
          CoversLive(Mem(), todo);
          var o := heap[q.r];
          if o.rc > 1 {
            heap, todo := heap[q.r := o.(rc := o.rc - 1)], todo[1..];
          } else {
            heap, todo := heap - {q.r}, Fields(o.body) + todo[1..];
          }
        } else {
          todo := todo[1..];
        }
      }
    }

    method LeanMkString(text: string) returns (p: Ptr)
      modifies this`heap, this`next
      ensures (Mem(), p) == MakeString(old(Mem()), text)
    {
      p := At(next);
      heap, next := heap[next := Object(1, Str(text))], next + 1;
    }

    /** The foreign call, one step as seen from C. */
    method CallKernel(op: Op, args: seq<Ptr>) returns (p: Ptr)
      requires Conforms(kernel) && Covers(Mem(), args)
      modifies this`heap, this`next
      ensures (Mem(), p) == Invoke(kernel, old(Mem()), op, args)
    {
      var answer := Invoke(kernel, Mem(), op, args);
      heap, next, p := answer.0.heap, answer.0.next, answer.1;
    }

    // ----- the string slot -----

    method Capture(s: Ptr)
      requires tlsLastString != Null ==> Covers(Mem(), [tlsLastString])
      modifies this`heap, this`tlsLastString
      ensures (Mem(), tlsLastString) == CaptureString(old(Mem()), old(tlsLastString), s)
    {
      if tlsLastString != Null {
        LeanDec(tlsLastString);
      }
      tlsLastString := s;
    }

    method ExtractOption(opt: Ptr) returns (s: Ptr)
      requires IsSome(Mem(), opt) || opt == Box(0)
      requires ExtractAffordable(Mem(), tlsLastString, opt)
      modifies this`heap, this`tlsLastString
      ensures (Mem(), tlsLastString, s) == ExtractOptionString(old(Mem()), old(tlsLastString), opt)
    {
      if Tag(Mem(), opt) == 0 {
        LeanDec(opt);
        return Null;
      }
      s := heap[opt.r].body.fields[0];
      LeanInc(s);
      LeanDec(opt);
      Capture(s);
    }

    method L4yamlFinalize()
      requires Valid()
      modifies this`heap, this`tlsLastString, this`log
      ensures Valid() && Current() == StepFinalize(old(Current()))
      ensures log == old(log) + [Exchange(Finalize, Null, "")]
    {
      ghost var x := Current();
      if tlsLastString != Null {
        DropBalanced(Mem(), owned, tlsLastString);
        LeanDec(tlsLastString);
        tlsLastString := Null;
      }
      log := log + [Exchange(Finalize, Null, "")];
      assert Current() == StepFinalize(x);
    }

    // ----- parsing -----

    /** `l4yaml_parse`, `l4yaml_parse_single` and `l4yaml_parse_limits_yaml`. */
    method ParseOne(op: Op, input: string) returns (p: Ptr)
      requires Valid() && WellTyped(Parse(op, [input]))
      modifies this`heap, this`next, this`owned, this`log
      ensures Valid() && p != Null && (Current(), p) == StepParse(kernel, old(Current()), op, [input])
      ensures log == old(log) + [Exchange(Parse(op, [input]), p, "")]
    {
      hide Balanced, Covers, Evolves;
      ghost var x := Current();
      MakeStringsBalanced(Mem(), Holders(x), [input]);
      MakeStringsUnfold(Mem(), input, "");
      var leanInput := LeanMkString(input);
      InvokeBalanced(kernel, Mem(), op, [leanInput], Holders(x));
      p := CallKernel(op, [leanInput]);
      owned := owned + One(p);
      log := log + [Exchange(Parse(op, [input]), p, "")];
      assert (Current(), p) == StepParse(kernel, x, op, [input]);
    }

    method ParseConfigured(input: string, config: string) returns (p: Ptr)
      requires Valid()
      modifies this`heap, this`next, this`owned, this`log
      ensures Valid() && p != Null
      ensures (Current(), p) == StepParse(kernel, old(Current()), ParseWithConfig, [input, config])
      ensures log == old(log) + [Exchange(Parse(ParseWithConfig, [input, config]), p, "")]
    {
      hide Balanced, Covers, Evolves;
      ghost var x := Current();
      MakeStringsBalanced(Mem(), Holders(x), [input, config]);
      MakeStringsUnfold(Mem(), input, config);
      var leanInput := LeanMkString(input);
      var leanConfig := LeanMkString(config);
      InvokeBalanced(kernel, Mem(), ParseWithConfig, [leanInput, leanConfig], Holders(x));
      p := CallKernel(ParseWithConfig, [leanInput, leanConfig]);
      owned := owned + One(p);
      log := log + [Exchange(Parse(ParseWithConfig, [input, config]), p, "")];
      assert (Current(), p) == StepParse(kernel, x, ParseWithConfig, [input, config]);
    }

    // ----- inspection -----

    /** The increment every inspector makes so that the caller's reference survives. */
    method BorrowAndCall(op: Op, h: Ptr, texts: seq<string>) returns (p: Ptr)
      requires Conforms(kernel) && BorrowOk(Mem(), h, texts) && |texts| <= 1
      modifies this`heap, this`next
      ensures (Mem(), p) == Borrow(kernel, old(Mem()), op, h, texts)
    {
      LeanInc(h);
      ghost var m := Mem();
      var args := [h];
      if texts != [] {
        var leanText := LeanMkString(texts[0]);
        args := args + [leanText];
        MakeStringsUnfold(m, texts[0], "");
        assert texts == [texts[0]];
      } else {
        assert args + [] == args;
      }
      p := CallKernel(op, args);
    }

    /** `is_ok`, `count`, `kind`, `style` and the length functions. */
    method InspectHandle(op: Op, h: Ptr) returns (n: nat)
      requires Valid() && Legal(Current(), Inspect(op, h))
      modifies this`heap, this`next, this`log
      ensures Valid() && (Current(), Box(n)) == StepInspect(kernel, old(Current()), op, h)
      ensures log == old(log) + [Exchange(Inspect(op, h), Box(n), "")]
    {
      BorrowBalanced(kernel, Mem(), Holders(Current()), op, h, []);
      var p := BorrowAndCall(op, h, []);
      assert (Current(), p) == StepInspect(kernel, old(Current()), op, h);
      n := p.n;
      log := log + [Exchange(Inspect(op, h), p, "")];
    }

    /** The functions that return a child handle. */
    method FetchHandle(op: Op, h: Ptr) returns (p: Ptr)
      requires Valid() && Legal(Current(), Fetch(op, h))
      modifies this`heap, this`next, this`owned, this`log
      ensures Valid() && p != Null && (Current(), p) == StepFetch(kernel, old(Current()), op, h)
      ensures log == old(log) + [Exchange(Fetch(op, h), p, "")]
    {
      hide Balanced, Covers, Evolves;
      ghost var x := Current();
      BorrowBalanced(kernel, Mem(), Holders(x), op, h, []);
      p := BorrowAndCall(op, h, []);
      owned := owned + One(p);
      log := log + [Exchange(Fetch(op, h), p, "")];
      assert (Current(), p) == StepFetch(kernel, x, op, h);
    }

    method ValueLookup(h: Ptr, key: string) returns (p: Ptr)
      requires Valid() && Owns(Current(), h)
      modifies this`heap, this`next, this`owned, this`log
      ensures Valid() && (Current(), p) == StepLookup(kernel, old(Current()), h, key)
      ensures log == old(log) + [Exchange(Lookup(h, key), p, "")]
    {
      hide Balanced, Covers, Evolves;
      ghost var x := Current();
      BorrowBalanced(kernel, Mem(), Holders(x), LookupRaw, h, [key]);
      var opt := BorrowAndCall(LookupRaw, h, [key]);
      UnwrapGood(x, Mem(), opt);
      p := Unwrap(opt);
      owned := owned + One(p);
      log := log + [Exchange(Lookup(h, key), p, "")];
      assert (Current(), p) == StepLookup(kernel, x, h, key);
    }

    method Unwrap(opt: Ptr) returns (p: Ptr)
      requires UnwrapAffordable(Mem(), opt)
      modifies this`heap
      ensures (Mem(), p) == UnwrapOption(old(Mem()), opt)
    {
      if Tag(Mem(), opt) == 0 {
        LeanDec(opt);
        return Null;
      }
      p := heap[opt.r].body.fields[0];
      LeanInc(p);
      LeanDec(opt);
    }

    /** `value_string`, `dump` and `dump_docs`; with a configuration text, `dump_configured`. */
    method ReadText(op: Op, h: Ptr, texts: seq<string>) returns (s: Ptr)
      requires Valid() && Owns(Current(), h) && ReturnsOf(op) == Text
      requires texts == [] || (|texts| == 1 && op == DumpWithConfig)
      modifies this`heap, this`next, this`tlsLastString, this`log
      ensures Valid() && (Current(), s) == StepText(kernel, old(Current()), op, h, texts)
      ensures var call := if texts == [] then FetchString(op, h) else DumpConfigured(h, texts[0]);
        log == old(log) + [Exchange(call, s, TextAt(s))]
    {
      hide Balanced, Covers, Evolves;
      ghost var x := Current();
      BorrowBalanced(kernel, Mem(), Holders(x), op, h, texts);
      s := BorrowAndCall(op, h, texts);
      SlotSurvives(x, Mem(), s);
      CaptureGood(x, Mem(), s);
      Capture(s);
      ghost var call := if texts == [] then FetchString(op, h) else DumpConfigured(h, texts[0]);
      log := log + [Exchange(call, s, TextAt(s))];
      assert (Current(), s) == StepText(kernel, x, op, h, texts);
    }

    /** `tag` and `anchor`. */
    method ReadOptText(op: Op, h: Ptr) returns (s: Ptr)
      requires Valid() && Owns(Current(), h) && ReturnsOf(op) == MaybeText
      modifies this`heap, this`next, this`tlsLastString, this`log
      ensures Valid() && (Current(), s) == StepOptText(kernel, old(Current()), op, h)
      ensures log == old(log) + [Exchange(FetchOptString(op, h), s, TextAt(s))]
    {
      hide Balanced, Covers, Evolves;
      ghost var x := Current();
      BorrowBalanced(kernel, Mem(), Holders(x), op, h, []);
      var opt := BorrowAndCall(op, h, []);
      ExtractGood(x, Mem(), opt);
      s := ExtractOption(opt);
      log := log + [Exchange(FetchOptString(op, h), s, TextAt(s))];
      assert (Current(), s) == StepOptText(kernel, x, op, h);
    }

    /** The error readers of parse results and configuration results. */
    method ReadError(op: Op, h: Ptr) returns (s: Ptr)
      requires Valid() && (h == Null || Owns(Current(), h)) && ReturnsOf(op) == Text
      modifies this`heap, this`next, this`tlsLastString, this`log
      ensures Valid() && (Current(), s) == StepError(kernel, old(Current()), op, h)
      ensures log == old(log) + [Exchange(ErrorMessage(op, h), s, TextAt(s))]
    {
      hide Balanced, Covers, Evolves;
      ghost var x := Current();
      if h == Null {
        log := log + [Exchange(ErrorMessage(op, h), Null, "")];
        return Null;
      }
      BorrowBalanced(kernel, Mem(), Holders(x), op, h, []);
      s := BorrowAndCall(op, h, []);
      if heap[s.r].body.text == "" {
        DropGood(x, Mem(), s);
        LeanDec(s);
        s := Null;
      } else {
        SlotSurvives(x, Mem(), s);
        CaptureGood(x, Mem(), s);
        Capture(s);
      }
      log := log + [Exchange(ErrorMessage(op, h), s, TextAt(s))];
      assert (Current(), s) == StepError(kernel, x, op, h);
    }

    method L4yamlFree(h: Ptr)
      requires Valid() && Legal(Current(), Free(h))
      modifies this`heap, this`owned, this`log
      ensures Valid() && Current() == StepFree(old(Current()), h)
      ensures log == old(log) + [Exchange(Free(h), Null, "")]
    {
      hide Balanced, Covers, Evolves, SlotOk;
      ghost var x := Current();
      if h != Null {
        assert Holders(x) == x.owned - One(h) + One(x.slot) + One(h);
        DropBalanced(Mem(), x.owned - One(h) + One(x.slot), h);
        LeanDec(h);
        owned := owned - One(h);
      }
      log := log + [Exchange(Free(h), Null, "")];
      assert Current() == StepFree(x, h);
    }
  }
}
