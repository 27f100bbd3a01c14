/** The Python wrappers: which handles each path of `load`, `load_all`, the configured
    loaders and the value accessors leaves owned, and what dropping the objects gives back.
    A Python handle of 0 is `NULL`. */
module PyHandles {
  import Prelude
  import opened LeanHeap
  import opened KernelCall
  import opened Shim
  import opened CApi

  datatype PyError =
    | ValueError
    | ParseError(msg: string)
    | LimitError(msg: string)
    | L4YamlError(msg: string)
    | UnboundLocalError(name: string)

  datatype Result<+T> = Ok(value: T) | Err(error: PyError)

  // ----- error texts -----

  function Lower(s: string): string {
    if s == [] then [] else [if 'A' <= s[0] <= 'Z' then s[0] + 32 as char else s[0]] + Lower(s[1..])
  }

  function ErrorFor(msg: string): PyError {
    var low := Lower(msg);
    if Prelude.Contains("limit", low) || Prelude.Contains("exceeded", low) then LimitError(msg) else ParseError(msg)
  }

  /** `_PRESETS`. */
  function ResolvePreset(limits: string): Result<nat> {
    if limits == "default" then Ok(0)
    else if limits == "strict" then Ok(1)
    else if limits == "permissive" then Ok(2)
    else if limits == "unlimited" then Ok(3)
    else if limits == "safe_tags" then Ok(4)
    else Err(ValueError)
  }

  lemma PresetTable()
    ensures ResolvePreset("default") == Ok(0) && ResolvePreset("strict") == Ok(1)
    ensures ResolvePreset("permissive") == Ok(2) && ResolvePreset("unlimited") == Ok(3)
    ensures ResolvePreset("safe_tags") == Ok(4)
    ensures forall limits :: ResolvePreset(limits) == Err(ValueError) <==>
      limits !in ["default", "strict", "permissive", "unlimited", "safe_tags"]
  {
    assert "default"[0] == 'd' && "strict"[1] == 't' && "permissive"[0] == 'p' && "unlimited"[0] == 'u';
    assert "safe_tags"[1] == 'a';
  }

  /** At `i` stand the letters of a word, each small or capital. */
  ghost predicate SpelledAt(s: string, i: int, small: string, capital: string) {
    && |small| == |capital| && 0 <= i <= |s| - |small|
    && forall k :: 0 <= k < |small| ==> s[i + k] == small[k] || s[i + k] == capital[k]
  }

  ghost predicate Mentions(s: string, small: string, capital: string) {
    exists i :: SpelledAt(s, i, small, capital)
  }

  lemma {:induction false} LowerAt(s: string)
    ensures |Lower(s)| == |s|
    ensures forall i :: 0 <= i < |s| ==> Lower(s)[i] == if 'A' <= s[i] <= 'Z' then s[i] + 32 as char else s[i]
  {
    if s != [] { LowerAt(s[1..]); }
  }

  ghost predicate Capitals(small: string, capital: string) {
    && |small| == |capital|
    && forall k :: 0 <= k < |small| ==> 'A' <= capital[k] <= 'Z' && small[k] == capital[k] + 32 as char
  }

  lemma SpelledBelow(s: string, i: nat, small: string, capital: string)
    requires Capitals(small, capital) && i <= |s| - |small| && |Lower(s)| == |s|
    ensures small <= Lower(s)[i..] <==> SpelledAt(s, i, small, capital)
  {
    LowerAt(s);
    var low := Lower(s);
    assert forall k :: 0 <= k < |small| ==> low[i..][k] == low[i + k];
    if SpelledAt(s, i, small, capital) {
      assert low[i..][..|small|] == small;
    }
  }

  /** Looking for a word in the lower-cased message finds it in either case. */
  lemma ContainsLower(s: string, small: string, capital: string)
    requires Capitals(small, capital)
    ensures Prelude.Contains(small, Lower(s)) <==> Mentions(s, small, capital)
  {
    hide Lower, Capitals;
    LowerAt(s);
    if Prelude.Contains(small, Lower(s)) {
      var i :| 0 <= i <= |Lower(s)| && small <= Lower(s)[i..];
      SpelledBelow(s, i, small, capital);
    }
    if Mentions(s, small, capital) {
      var i :| SpelledAt(s, i, small, capital);
      SpelledBelow(s, i, small, capital);
    }
  }

  /** A limit error exactly when the message says `limit` or `exceeded` in any capitalisation. */
  lemma ErrorForMeans(msg: string)
    ensures ErrorFor(msg) ==
      if Mentions(msg, "limit", "LIMIT") || Mentions(msg, "exceeded", "EXCEEDED") then LimitError(msg)
      else ParseError(msg)
  {
    hide Lower, Prelude.Contains, Mentions;
    ContainsLower(msg, "limit", "LIMIT");
    ContainsLower(msg, "exceeded", "EXCEEDED");
  }

  // ----- the foreign functions: the handles they leave owned, and the call they make -----

  predicate Held(owned: multiset<Ref>, h: Ptr) {
    h != Null && (h.At? ==> h.r in owned)
  }

  function Gain(owned: multiset<Ref>, p: Ptr): (g: multiset<Ref>)
    ensures if p == Null then g == owned else Held(g, p)
    ensures forall h :: Held(owned, h) ==> Held(g, h)
  {
    owned + One(p)
  }

  function Lose(owned: multiset<Ref>, p: Ptr): multiset<Ref> {
    owned - One(p)
  }

  /** The handles of `hs` on top of `owned`. */
  function GainAll(owned: multiset<Ref>, hs: seq<Ptr>): (g: multiset<Ref>)
    ensures forall h :: Held(owned, h) ==> Held(g, h)
  {
    if hs == [] then owned else Gain(GainAll(owned, hs[..|hs| - 1]), hs[|hs| - 1])
  }

  lemma GainMore(owned: multiset<Ref>, hs: seq<Ptr>, h: Ptr)
    ensures Gain(GainAll(owned, hs), h) == GainAll(owned, hs + [h])
  {
    assert (hs + [h])[..|hs|] == hs;
  }

  /** Giving back the handle that was gained before `p`. */
  lemma GiveBack(owned: multiset<Ref>, h: Ptr, p: Ptr)
    ensures Lose(Gain(Gain(owned, h), p), h) == Gain(owned, p)
    ensures Lose(Gain(owned, h), h) == owned
  {
  }

  /** `GainAll` adds the references of the sequence. */
  lemma RefsSnoc(hs: seq<Ptr>, h: Ptr)
    ensures Refs(hs + [h]) == Refs(hs) + One(h)
  {
    RefsAppend(hs, [h]);
    assert Refs([h]) == One(h);
  }

  lemma {:induction false} GainAllAdds(owned: multiset<Ref>, hs: seq<Ptr>)
    ensures GainAll(owned, hs) == owned + Refs(hs)
  {
    hide Held, Refs, One;
    if hs == [] {
      assert Refs(hs) == multiset{} by { NoRefs(); }
    } else {
      var front, last := hs[..|hs| - 1], hs[|hs| - 1];
      GainAllAdds(owned, front);
      assert hs == front + [last];
      RefsSnoc(front, last);
    }
  }

  lemma NoRefs()
    ensures Refs([]) == multiset{}
  {
  }

  /** A handle gained below others can be given back from under them. */
  lemma GiveBackUnder(owned: multiset<Ref>, h: Ptr, hs: seq<Ptr>)
    ensures Lose(GainAll(Gain(owned, h), hs), h) == GainAll(owned, hs)
    ensures GainAll(Gain(owned, h), hs) == Gain(GainAll(owned, hs), h)
  {
    hide GainAll, Held, Refs, One;
    GainAllAdds(Gain(owned, h), hs);
    GainAllAdds(owned, hs);
    TakeMiddle(owned, One(h), Refs(hs));
  }

  lemma TakeMiddle(a: multiset<Ref>, b: multiset<Ref>, c: multiset<Ref>)
    ensures a + b + c - b == a + c && a + b + c == a + c + b
  {
  }

  method FfiInspect(lib: Library, op: Op, h: Ptr) returns (n: nat)
    requires lib.Valid() && Held(lib.owned, h) && WellTyped(Inspect(op, h))
    modifies lib
    ensures lib.Valid() && lib.owned == old(lib.owned)
    ensures lib.log == old(lib.log) + [Exchange(Inspect(op, h), Box(n), "")]
  {
    n := lib.InspectHandle(op, h);
  }

  method FfiFetch(lib: Library, op: Op, h: Ptr) returns (p: Ptr)
    requires lib.Valid() && Held(lib.owned, h) && WellTyped(Fetch(op, h))
    modifies lib
    ensures lib.Valid() && p != Null && lib.owned == Gain(old(lib.owned), p)
    ensures lib.log == old(lib.log) + [Exchange(Fetch(op, h), p, "")]
  {
    p := lib.FetchHandle(op, h);
  }

  method FfiLookup(lib: Library, h: Ptr, key: string) returns (p: Ptr)
    requires lib.Valid() && Held(lib.owned, h)
    modifies lib
    ensures lib.Valid() && lib.owned == Gain(old(lib.owned), p)
    ensures lib.log == old(lib.log) + [Exchange(Lookup(h, key), p, "")]
  {
    p := lib.ValueLookup(h, key);
  }

  /** The bytes are copied out before anything else is called; empty stands for null. `p` is the
      pointer they were read through. */
  method FfiErrorText(lib: Library, op: Op, h: Ptr) returns (text: string, ghost p: Ptr)
    requires lib.Valid() && Held(lib.owned, h) && ReturnsOf(op) == Text
    modifies lib
    ensures lib.Valid() && lib.owned == old(lib.owned)
    ensures lib.log == old(lib.log) + [Exchange(ErrorMessage(op, h), p, text)]
  {
    var raw := lib.ReadError(op, h);
    text, p := if raw != Null then lib.heap[raw.r].body.text else "", raw;
  }

  method FfiParse(lib: Library, op: Op, input: string) returns (p: Ptr)
    requires lib.Valid() && WellTyped(Parse(op, [input]))
    modifies lib
    ensures lib.Valid() && p != Null && lib.owned == Gain(old(lib.owned), p)
    ensures lib.log == old(lib.log) + [Exchange(Parse(op, [input]), p, "")]
  {
    p := lib.ParseOne(op, input);
  }

  method FfiParseWith(lib: Library, input: string, config: string) returns (p: Ptr)
    requires lib.Valid()
    modifies lib
    ensures lib.Valid() && p != Null && lib.owned == Gain(old(lib.owned), p)
    ensures lib.log == old(lib.log) + [Exchange(Parse(ParseWithConfig, [input, config]), p, "")]
  {
    p := lib.ParseConfigured(input, config);
  }

  method FfiFree(lib: Library, h: Ptr)
    requires lib.Valid() && (h == Null || Held(lib.owned, h))
    modifies lib
    ensures lib.Valid() && lib.owned == Lose(old(lib.owned), h)
    ensures lib.log == old(lib.log) + [Exchange(Free(h), Null, "")]
  {
    lib.L4yamlFree(h);
  }

  // ----- what each path asks the library, call by call -----

  /** The value is of another kind, and nothing more was asked. */
  ghost predicate IsNot(trace: seq<Exchange>, h: Ptr, kind: nat) {
    |trace| == 1 && trace[0].call == Inspect(ValueKind, h) && trace[0].answer != Box(kind)
  }

  /** A sequence of `n` items, of which the first are fetched in order. */
  ghost predicate ListsItems(trace: seq<Exchange>, h: Ptr, n: nat, items: seq<Ptr>) {
    && |trace| == 2 + |items|
    && trace[0] == Exchange(Inspect(ValueKind, h), Box(1), "")
    && trace[1] == Exchange(Inspect(SeqLength, h), Box(n), "")
    && forall j :: 2 <= j < |trace| ==> trace[j] == Exchange(Fetch(SeqGet(j - 2), h), items[j - 2], "")
  }

  /** Keys and values are fetched alternately. */
  ghost predicate FetchesEntries(trace: seq<Exchange>, h: Ptr, parts: seq<Ptr>) {
    && |trace| == |parts|
    && forall j :: 0 <= j < |trace| ==>
         trace[j] == Exchange(Fetch(if j % 2 == 0 then MapKey(j / 2) else MapVal(j / 2), h), parts[j], "")
  }

  ghost predicate ListsEntries(trace: seq<Exchange>, h: Ptr, parts: seq<Ptr>) {
    && |trace| == 2 + |parts| && |parts| % 2 == 0
    && trace[0] == Exchange(Inspect(ValueKind, h), Box(2), "")
    && trace[1] == Exchange(Inspect(MapLength, h), Box(|parts| / 2), "")
    && FetchesEntries(trace[2..], h, parts)
  }

  /** The lookup answers with a handle, which is freed. */
  ghost predicate Finds(trace: seq<Exchange>, h: Ptr, key: string) {
    && |trace| == 3
    && trace[0] == Exchange(Inspect(ValueKind, h), Box(2), "")
    && trace[1].call == Lookup(h, key) && trace[1].answer != Null
    && trace[2] == Exchange(Free(trace[1].answer), Null, "")
  }

  ghost predicate FindsNothing(trace: seq<Exchange>, h: Ptr, key: string) {
    trace == [Exchange(Inspect(ValueKind, h), Box(2), ""), Exchange(Lookup(h, key), Null, "")]
  }

  ghost predicate IsGood(e: Exchange, result: Ptr) {
    e.call == Inspect(ResultIsOk, result) && e.answer != Box(0)
  }

  /** The message is read before the result is freed, and becomes the error. */
  ghost predicate IsFailure(trace: seq<Exchange>, result: Ptr, error: PyError) {
    && |trace| == 3
    && trace[0] == Exchange(Inspect(ResultIsOk, result), Box(0), "")
    && trace[1].call == ErrorMessage(ResultGetError, result)
    && trace[2] == Exchange(Free(result), Null, "")
    && error == ErrorFor(if trace[1].text == "" then "unknown parse error" else trace[1].text)
  }

  ghost predicate FailsToParse(trace: seq<Exchange>, parse: Call, error: PyError) {
    |trace| == 4 && trace[0].call == parse && IsFailure(trace[1..], trace[0].answer, error)
  }

  ghost predicate LoadsValue(trace: seq<Exchange>, parse: Call, h: Ptr) {
    && |trace| == 4 && ParsesWell(trace, parse)
    && var result := trace[0].answer;
    && trace[2] == Exchange(Fetch(ResultValue, result), h, "")
    && trace[3] == Exchange(Free(result), Null, "")
  }

  /** Of `n` documents, the first are fetched in order. */
  ghost predicate FetchesDocuments(trace: seq<Exchange>, docsH: Ptr, n: nat, hs: seq<Ptr>) {
    && |trace| == 1 + |hs|
    && trace[0] == Exchange(Inspect(DocsCount, docsH), Box(n), "")
    && forall j :: 1 <= j < |trace| ==> trace[j] == Exchange(Fetch(DocsGet(j - 1), docsH), hs[j - 1], "")
  }

  /** The document array is asked for every document once, and array and result are freed. */
  ghost predicate CollectsDocuments(trace: seq<Exchange>, result: Ptr, hs: seq<Ptr>) {
    var n := |hs|;
    && |trace| == 4 + n
    && trace[0].call == Fetch(ResultDocs, result)
    && var docsH := trace[0].answer;
    && FetchesDocuments(trace[1..2 + n], docsH, n, hs)
    && trace[2 + n] == Exchange(Free(docsH), Null, "")
    && trace[3 + n] == Exchange(Free(result), Null, "")
  }

  ghost predicate LoadsDocuments(trace: seq<Exchange>, parse: Call, hs: seq<Ptr>) {
    ParsesWell(trace, parse) && CollectsDocuments(trace[2..], trace[0].answer, hs)
  }

  /** The root of the first document; everything on the way is freed. */
  ghost predicate CollectsFirst(trace: seq<Exchange>, result: Ptr, h: Ptr) {
    && |trace| == 7
    && trace[0].call == Fetch(ResultDocs, result)
    && var docsH := trace[0].answer;
    && trace[1].call == Inspect(DocsCount, docsH) && trace[1].answer != Box(0)
    && trace[2].call == Fetch(DocsGet(0), docsH)
    && var dh := trace[2].answer;
    && trace[3] == Exchange(Fetch(DocRoot, dh), h, "")
    && trace[4] == Exchange(Free(dh), Null, "")
    && trace[5] == Exchange(Free(docsH), Null, "")
    && trace[6] == Exchange(Free(result), Null, "")
  }

  ghost predicate CollectsNone(trace: seq<Exchange>, result: Ptr) {
    && |trace| == 4
    && trace[0].call == Fetch(ResultDocs, result)
    && var docsH := trace[0].answer;
    && trace[1] == Exchange(Inspect(DocsCount, docsH), Box(0), "")
    && trace[2] == Exchange(Free(docsH), Null, "")
    && trace[3] == Exchange(Free(result), Null, "")
  }

  ghost predicate ParsesWell(trace: seq<Exchange>, parse: Call) {
    |trace| >= 2 && trace[0].call == parse && IsGood(trace[1], trace[0].answer)
  }

  ghost predicate LoadsFirst(trace: seq<Exchange>, parse: Call, h: Ptr) {
    ParsesWell(trace, parse) && CollectsFirst(trace[2..], trace[0].answer, h)
  }

  ghost predicate HasNoDocument(trace: seq<Exchange>, parse: Call) {
    ParsesWell(trace, parse) && CollectsNone(trace[2..], trace[0].answer)
  }

  // ----- wrapper objects -----

  class YamlValue {
    var handle: Ptr

    constructor (h: Ptr)
      requires h != Null
      ensures handle == h
    {
      handle := h;
    }

    /** Frees once; a second call finds a null handle. */
    method Del(lib: Library)
      requires lib.Valid() && (handle == Null || Held(lib.owned, handle))
      modifies this, lib
      ensures lib.Valid() && handle == Null && lib.owned == Lose(old(lib.owned), old(handle))
      ensures lib.log == old(lib.log) + (if old(handle) == Null then [] else [Exchange(Free(old(handle)), Null, "")])
    {
      if handle != Null {
        FfiFree(lib, handle);
        handle := Null;
      }
    }

    /** `as_list`: one owned handle per item, or an error and nothing owned. */
    method AsList(lib: Library) returns (r: Result<seq<YamlValue>>, ghost trace: seq<Exchange>)
      requires lib.Valid() && Held(lib.owned, handle)
      modifies lib
      ensures lib.Valid()
      ensures r.Ok? ==> lib.owned == GainAll(old(lib.owned), Handles(r.value)) && NewValues(r.value)
      ensures r.Ok? ==> forall v :: v in r.value ==> fresh(v)
      ensures r.Err? ==> lib.owned == old(lib.owned)
      ensures lib.log == old(lib.log) + trace
      ensures r.Ok? ==> ListsItems(trace, old(handle), |r.value|, Handles(r.value))
      ensures r.Err? ==> IsNot(trace, old(handle), 1) && r.error.L4YamlError?
    {
      hide Library.Valid, Held, Gain, Lose, NewValues, GainAll;
      var kind := FfiInspect(lib, ValueKind, handle);
      trace := [Exchange(Inspect(ValueKind, handle), Box(kind), "")];
      if kind != 1 {
        return Err(L4YamlError("as_list() requires a sequence")), trace;
      }
      var n := FfiInspect(lib, SeqLength, handle);
      var result: seq<YamlValue> := [];
      ghost var hs: seq<Ptr> := [];
      trace := trace + [Exchange(Inspect(SeqLength, handle), Box(n), "")];
      NoneNew();
      GainNone(lib.owned);
      for i := 0 to n
        invariant lib.Valid() && handle == old(handle)
        invariant lib.owned == GainAll(old(lib.owned), hs) && HasHandles(result, hs)
        invariant NewValues(result) && forall v :: v in result ==> fresh(v)
        invariant |hs| == i && lib.log == old(lib.log) + trace && ListsItems(trace, handle, n, hs)
      {
        var v := FetchValue(lib, SeqGet(i), handle);
        GainMore(old(lib.owned), hs, v.handle);
        OneMoreNew(result, v);
        result, hs := result + [v], hs + [v.handle];
        trace := trace + [Exchange(Fetch(SeqGet(i), handle), v.handle, "")];
      }
      assert Handles(result) == hs;
      return Ok(result), trace;
    }

    /** `raw_items`: keys and values alternate in the result. */
    method RawItems(lib: Library) returns (r: Result<seq<YamlValue>>, ghost trace: seq<Exchange>)
      requires lib.Valid() && Held(lib.owned, handle)
      modifies lib
      ensures lib.Valid()
      ensures r.Ok? ==> lib.owned == GainAll(old(lib.owned), Handles(r.value)) && NewValues(r.value)
      ensures r.Ok? ==> |r.value| % 2 == 0 && forall v :: v in r.value ==> fresh(v)
      ensures r.Err? ==> lib.owned == old(lib.owned)
      ensures lib.log == old(lib.log) + trace
      ensures r.Ok? ==> ListsEntries(trace, old(handle), Handles(r.value))
      ensures r.Err? ==> IsNot(trace, old(handle), 2) && r.error.L4YamlError?
    {
      hide Library.Valid, Held, Gain, Lose, NewValues, FetchesEntries, GainAll;
      var kind := FfiInspect(lib, ValueKind, handle);
      trace := [Exchange(Inspect(ValueKind, handle), Box(kind), "")];
      if kind != 2 {
        return Err(L4YamlError("raw_items() requires a mapping")), trace;
      }
      var n := FfiInspect(lib, MapLength, handle);
      var result, pairs := CollectPairs(lib, handle, n);
      trace := trace + [Exchange(Inspect(MapLength, handle), Box(n), "")] + pairs;
      assert trace[2..] == pairs;
      return Ok(result), trace;
    }

    /** `__contains__`: the handle a lookup returns is given back at once. */
    method Contains(lib: Library, key: string) returns (found: bool, ghost trace: seq<Exchange>)
      requires lib.Valid() && Held(lib.owned, handle)
      modifies lib
      ensures lib.Valid() && lib.owned == old(lib.owned)
      ensures lib.log == old(lib.log) + trace
      ensures if found then Finds(trace, handle, key) else IsNot(trace, handle, 2) || FindsNothing(trace, handle, key)
    {
      hide Library.Valid, Held, Gain, Lose;
      var kind := FfiInspect(lib, ValueKind, handle);
      trace := [Exchange(Inspect(ValueKind, handle), Box(kind), "")];
      if kind != 2 {
        return false, trace;
      }
      var h := FfiLookup(lib, handle, key);
      trace := trace + [Exchange(Lookup(handle, key), h, "")];
      GiveBack(old(lib.owned), h, Null);
      if h != Null {
        FfiFree(lib, h);
        return true, trace + [Exchange(Free(h), Null, "")];
      }
      return false, trace;
    }
  }

  /** A child handle in its own wrapper. */
  method FetchValue(lib: Library, op: Op, parent: Ptr) returns (v: YamlValue)
    requires lib.Valid() && Held(lib.owned, parent) && WellTyped(Fetch(op, parent))
    modifies lib
    ensures lib.Valid() && fresh(v) && v.handle != Null && lib.owned == Gain(old(lib.owned), v.handle)
    ensures lib.log == old(lib.log) + [Exchange(Fetch(op, parent), v.handle, "")]
  {
    hide Library.Valid, Held, Gain, Lose;
    var h := FfiFetch(lib, op, parent);
    v := new YamlValue(h);
  }

  /** The loop of `raw_items`. */
  method CollectPairs(lib: Library, parent: Ptr, n: nat)
      returns (result: seq<YamlValue>, ghost trace: seq<Exchange>)
    requires lib.Valid() && Held(lib.owned, parent)
    modifies lib
    ensures lib.Valid() && lib.owned == GainAll(old(lib.owned), Handles(result))
    ensures NewValues(result) && |result| == 2 * n && forall v :: v in result ==> fresh(v)
    ensures lib.log == old(lib.log) + trace && |trace| == 2 * n && FetchesEntries(trace, parent, Handles(result))
  {
    hide Library.Valid, Held, Gain, Lose, NewValues, GainAll;
    result, trace := [], [];
    ghost var hs: seq<Ptr> := [];
    NoneNew();
    GainNone(lib.owned);
    for i := 0 to n
      invariant lib.Valid()
      invariant lib.owned == GainAll(old(lib.owned), hs) && HasHandles(result, hs)
      invariant |result| == 2 * i
      invariant lib.log == old(lib.log) + trace && FetchesEntries(trace, parent, hs)
      invariant NewValues(result) && forall v :: v in result ==> fresh(v)
    {
      var key, value := FetchPair(lib, i, parent);
      GainMore(old(lib.owned), hs, key.handle);
      GainMore(old(lib.owned), hs + [key.handle], value.handle);
      OneMoreNew(result, key);
      OneMoreNew(result + [key], value);
      result, hs := result + [key] + [value], hs + [key.handle] + [value.handle];
      trace := trace + [Exchange(Fetch(MapKey(i), parent), key.handle, ""),
                        Exchange(Fetch(MapVal(i), parent), value.handle, "")];
    }
    assert Handles(result) == hs;
  }

  method FetchPair(lib: Library, i: nat, parent: Ptr) returns (key: YamlValue, value: YamlValue)
    requires lib.Valid() && Held(lib.owned, parent)
    modifies lib
    ensures lib.Valid() && fresh(key) && fresh(value) && key != value && key.handle != Null && value.handle != Null
    ensures lib.owned == Gain(Gain(old(lib.owned), key.handle), value.handle)
    ensures lib.log == old(lib.log) + [Exchange(Fetch(MapKey(i), parent), key.handle, ""),
                                       Exchange(Fetch(MapVal(i), parent), value.handle, "")]
  {
    hide Library.Valid, Held, Gain, Lose;
    key := FetchValue(lib, MapKey(i), parent);
    value := FetchValue(lib, MapVal(i), parent);
  }

  ghost function Handles(vs: seq<YamlValue>): seq<Ptr>
    reads vs
  {
    seq(|vs|, i requires 0 <= i < |vs| reads vs => vs[i].handle)
  }

  ghost predicate HasHandles(vs: seq<YamlValue>, hs: seq<Ptr>)
    reads vs
  {
    |vs| == |hs| && forall i :: 0 <= i < |vs| ==> vs[i].handle == hs[i]
  }

  ghost predicate NewValues(vs: seq<YamlValue>)
    reads vs
  {
    && (forall i :: 0 <= i < |vs| ==> vs[i].handle != Null)
    && (forall i, j :: 0 <= i < j < |vs| ==> vs[i] != vs[j])
  }

  lemma NoneNew()
    ensures NewValues([])
  {
  }

  lemma OneMoreNew(vs: seq<YamlValue>, v: YamlValue)
    requires NewValues(vs) && v !in vs && v.handle != Null
    ensures NewValues(vs + [v])
  {
  }

  /** Dropping every object gives back exactly the handles they held. */
  method DropValues(lib: Library, vs: seq<YamlValue>, ghost rest: multiset<Ref>)
    requires lib.Valid() && NewValues(vs) && lib.owned == GainAll(rest, Handles(vs))
    modifies lib, vs
    ensures lib.Valid() && lib.owned == rest
    ensures forall v :: v in vs ==> v.handle == Null
  {
    hide Library.Valid, Held, Gain, Lose;
    ghost var hs := Handles(vs);
    var k := |vs|;
    assert hs[..k] == hs;
    while k > 0
      invariant 0 <= k <= |vs| == |hs| && lib.Valid()
      invariant forall i :: 0 <= i < k ==> vs[i].handle == hs[i] != Null
      invariant forall i :: k <= i < |vs| ==> vs[i].handle == Null
      invariant lib.owned == GainAll(rest, hs[..k])
    {
      k := k - 1;
      assert hs[..k + 1][..k] == hs[..k];
      GiveBack(GainAll(rest, hs[..k]), hs[k], Null);
      vs[k].Del(lib);
    }
  }

  class YamlDocument {
    var handle: Ptr
    var cachedRoot: YamlValue?

    constructor (h: Ptr)
      ensures handle == h && cachedRoot == null
    {
      handle, cachedRoot := h, null;
    }

    method Del(lib: Library)
      requires lib.Valid() && (handle == Null || Held(lib.owned, handle))
      modifies this`handle, lib
      ensures lib.Valid() && handle == Null && lib.owned == Lose(old(lib.owned), old(handle))
      ensures lib.log == old(lib.log) + (if old(handle) == Null then [] else [Exchange(Free(old(handle)), Null, "")])
    {
      if handle != Null {
        FfiFree(lib, handle);
        handle := Null;
      }
    }

    /** `root`: the first use acquires one handle, later uses none. */
    method Root(lib: Library) returns (v: YamlValue)
      requires lib.Valid() && Held(lib.owned, handle)
      modifies this`cachedRoot, lib
      ensures lib.Valid() && v == cachedRoot
      ensures if old(cachedRoot) == null then
                fresh(v) && v.handle != Null && lib.owned == Gain(old(lib.owned), v.handle)
              else v == old(cachedRoot) && lib.owned == old(lib.owned)
      ensures lib.log == old(lib.log) +
        if old(cachedRoot) == null then [Exchange(Fetch(DocRoot, handle), v.handle, "")] else []
    {
      hide Library.Valid, Held, Gain, Lose;
      if cachedRoot == null {
        var h := FfiFetch(lib, DocRoot, handle);
        cachedRoot := new YamlValue(h);
      }
      v := cachedRoot;
    }
  }

  ghost function DocHandles(ds: seq<YamlDocument>): seq<Ptr>
    reads ds
  {
    seq(|ds|, i requires 0 <= i < |ds| reads ds => ds[i].handle)
  }

  /** The handles of the cached roots, null where there is none. */
  ghost function RootHandles(ds: seq<YamlDocument>): seq<Ptr>
    reads ds, Roots(ds)
  {
    seq(|ds|, i requires 0 <= i < |ds| reads ds, Roots(ds) => RootHandle(ds[i]))
  }

  ghost function RootHandle(d: YamlDocument): Ptr
    reads d, d.cachedRoot
  {
    if d.cachedRoot == null then Null else d.cachedRoot.handle
  }

  ghost function Roots(ds: seq<YamlDocument>): set<YamlValue?>
    reads ds
  {
    set d | d in ds && d.cachedRoot != null :: d.cachedRoot
  }

  /** Every document is an object of its own and holds a handle. */
  ghost predicate NewDocuments(ds: seq<YamlDocument>)
    reads ds
  {
    && (forall i :: 0 <= i < |ds| ==> ds[i].handle != Null)
    && (forall i, j :: 0 <= i < j < |ds| ==> ds[i] != ds[j])
  }

  /** Cached roots hold handles, and no two documents share one. */
  ghost predicate OwnRoots(ds: seq<YamlDocument>)
    reads ds, Roots(ds)
  {
    && (forall i :: 0 <= i < |ds| && ds[i].cachedRoot != null ==> ds[i].cachedRoot.handle != Null)
    && (forall i, j :: 0 <= i < j < |ds| && ds[i].cachedRoot != null ==> ds[i].cachedRoot != ds[j].cachedRoot)
  }

  // ----- loading -----

  /** An error result is freed before the error is raised; a good one is left to the caller. */
  method CheckResult(lib: Library, result: Ptr) returns (r: Result<()>, ghost trace: seq<Exchange>)
    requires lib.Valid() && Held(lib.owned, result)
    modifies lib
    ensures lib.Valid()
    ensures r.Ok? ==> lib.owned == old(lib.owned)
    ensures r.Err? ==> lib.owned == Lose(old(lib.owned), result)
    ensures r.Err? ==> (r.error.ParseError? || r.error.LimitError?) && r.error.msg != ""
    ensures r.Err? ==> r.error == ErrorFor(r.error.msg)
    ensures lib.log == old(lib.log) + trace
    ensures if r.Ok? then |trace| == 1 && IsGood(trace[0], result) else IsFailure(trace, result, r.error)
  {
    hide Library.Valid, Held, Gain, Lose;
    var ok := FfiInspect(lib, ResultIsOk, result);
    trace := [Exchange(Inspect(ResultIsOk, result), Box(ok), "")];
    if ok != 0 {
      return Ok(()), trace;
    }
    var raw, p := FfiErrorText(lib, ResultGetError, result);
    var msg := if raw != "" then raw else "unknown parse error";
    FfiFree(lib, result);
    trace := trace + [Exchange(ErrorMessage(ResultGetError, result), p, raw), Exchange(Free(result), Null, "")];
    return Err(ErrorFor(msg)), trace;
  }

  lemma ParseFails(parse: Exchange, checked: seq<Exchange>, error: PyError)
    requires IsFailure(checked, parse.answer, error)
    ensures FailsToParse([parse] + checked, parse.call, error)
  {
    assert ([parse] + checked)[1..] == checked;
  }

  /** On success the returned object holds the one new handle; on error nothing is left. */
  method Load(lib: Library, input: string, limits: string)
      returns (r: Result<YamlValue>, ghost trace: seq<Exchange>)
    requires lib.Valid()
    modifies lib
    ensures lib.Valid()
    ensures r.Ok? ==> fresh(r.value) && r.value.handle != Null && lib.owned == Gain(old(lib.owned), r.value.handle)
    ensures r.Err? ==> lib.owned == old(lib.owned)
    ensures lib.log == old(lib.log) + trace
    ensures var preset := ResolvePreset(limits);
      if preset.Err? then r == Err(preset.error) && trace == [] else
      var parse := Parse(ParseSingleSafe(preset.value), [input]);
      if r.Ok? then LoadsValue(trace, parse, r.value.handle) else FailsToParse(trace, parse, r.error)
  {
    hide Library.Valid, Held, Gain, Lose, IsFailure, ResolvePreset;
    var preset := ResolvePreset(limits);
    if preset.Err? {
      return Err(preset.error), [];
    }
    var result := FfiParse(lib, ParseSingleSafe(preset.value), input);
    trace := [Exchange(Parse(ParseSingleSafe(preset.value), [input]), result, "")];
    var check, checked := CheckResult(lib, result);
    if check.Err? {
      GiveBack(old(lib.owned), result, Null);
      ParseFails(trace[0], checked, check.error);
      return Err(check.error), trace + checked;
    }
    var h := FfiFetch(lib, ResultValue, result);
    GiveBack(old(lib.owned), result, h);
    FfiFree(lib, result);
    var v := new YamlValue(h);
    trace := trace + checked + [Exchange(Fetch(ResultValue, result), h, ""), Exchange(Free(result), Null, "")];
    return Ok(v), trace;
  }

  lemma OneMoreDocument(ds: seq<YamlDocument>, d: YamlDocument)
    requires NewDocuments(ds) && d !in ds && d.handle != Null
    ensures NewDocuments(ds + [d])
  {
  }

  lemma NoDocuments()
    ensures NewDocuments([])
  {
  }

  /** The loop over the document array: one handle per document. */
  method FetchDocuments(lib: Library, docsH: Ptr) returns (docs: seq<YamlDocument>, ghost trace: seq<Exchange>)
    requires lib.Valid() && Held(lib.owned, docsH)
    modifies lib
    ensures lib.Valid() && lib.owned == GainAll(old(lib.owned), DocHandles(docs))
    ensures NewDocuments(docs) && forall d :: d in docs ==> fresh(d) && d.cachedRoot == null
    ensures lib.log == old(lib.log) + trace && FetchesDocuments(trace, docsH, |docs|, DocHandles(docs))
  {
    hide Library.Valid, Held, Gain, Lose, GainAll, NewDocuments;
    var count := FfiInspect(lib, DocsCount, docsH);
    docs, trace := [], [Exchange(Inspect(DocsCount, docsH), Box(count), "")];
    ghost var hs: seq<Ptr> := [];
    GainNone(lib.owned);
    NoDocuments();
    for i := 0 to count
      invariant lib.Valid() && lib.owned == GainAll(old(lib.owned), hs)
      invariant |docs| == |hs| && forall i :: 0 <= i < |hs| ==> docs[i].handle == hs[i]
      invariant |hs| == i && lib.log == old(lib.log) + trace && FetchesDocuments(trace, docsH, count, hs)
      invariant NewDocuments(docs) && forall d :: d in docs ==> fresh(d) && d.cachedRoot == null
    {
      var dh := FfiFetch(lib, DocsGet(i), docsH);
      var d := new YamlDocument(dh);
      GainMore(old(lib.owned), hs, dh);
      OneMoreDocument(docs, d);
      docs, hs, trace := docs + [d], hs + [dh], trace + [Exchange(Fetch(DocsGet(i), docsH), dh, "")];
    }
    assert DocHandles(docs) == hs;
  }

  /** The common end of the multi-document loaders: the documents are fetched, then the array and
      the result are given back. */
  method CollectDocuments(lib: Library, result: Ptr, ghost before: multiset<Ref>)
      returns (docs: seq<YamlDocument>, ghost trace: seq<Exchange>)
    requires lib.Valid() && result != Null && lib.owned == Gain(before, result)
    modifies lib
    ensures lib.Valid() && lib.owned == GainAll(before, DocHandles(docs))
    ensures NewDocuments(docs) && forall d :: d in docs ==> fresh(d) && d.cachedRoot == null
    ensures lib.log == old(lib.log) + trace && CollectsDocuments(trace, result, DocHandles(docs))
  {
    hide Library.Valid, Held, Gain, Lose, GainAll, NewDocuments;
    var docsH := FfiFetch(lib, ResultDocs, result);
    ghost var fetched;
    docs, fetched := FetchDocuments(lib, docsH);
    ghost var hs := DocHandles(docs);
    GiveBackUnder(Gain(before, result), docsH, hs);
    GiveBackUnder(before, result, hs);
    FfiFree(lib, docsH);
    FfiFree(lib, result);
    assert DocHandles(docs) == hs;
    trace := [Exchange(Fetch(ResultDocs, result), docsH, "")] + fetched
      + [Exchange(Free(docsH), Null, ""), Exchange(Free(result), Null, "")];
    assert trace[1..2 + |hs|] == fetched;
  }

  method LoadAll(lib: Library, input: string, limits: string)
      returns (r: Result<seq<YamlDocument>>, ghost trace: seq<Exchange>)
    requires lib.Valid()
    modifies lib
    ensures lib.Valid()
    ensures r.Ok? ==> lib.owned == GainAll(old(lib.owned), DocHandles(r.value))
    ensures r.Ok? ==> NewDocuments(r.value) && forall d :: d in r.value ==> fresh(d) && d.cachedRoot == null
    ensures r.Err? ==> lib.owned == old(lib.owned)
    ensures lib.log == old(lib.log) + trace
    ensures var preset := ResolvePreset(limits);
      if preset.Err? then r == Err(preset.error) && trace == [] else
      var parse := Parse(ParseSafe(preset.value), [input]);
      if r.Ok? then LoadsDocuments(trace, parse, DocHandles(r.value)) else FailsToParse(trace, parse, r.error)
  {
    hide Library.Valid, Held, Gain, Lose, IsFailure, ResolvePreset, CollectsDocuments, GainAll, NewDocuments;
    var preset := ResolvePreset(limits);
    if preset.Err? {
      return Err(preset.error), [];
    }
    var result := FfiParse(lib, ParseSafe(preset.value), input);
    trace := [Exchange(Parse(ParseSafe(preset.value), [input]), result, "")];
    var check, checked := CheckResult(lib, result);
    if check.Err? {
      GiveBack(old(lib.owned), result, Null);
      ParseFails(trace[0], checked, check.error);
      return Err(check.error), trace + checked;
    }
    var docs, collected := CollectDocuments(lib, result, old(lib.owned));
    trace := trace + checked + collected;
    return Ok(docs), trace;
  }

  method LoadConfiguredAll(lib: Library, input: string, config: string)
      returns (r: Result<seq<YamlDocument>>, ghost trace: seq<Exchange>)
    requires lib.Valid()
    modifies lib
    ensures lib.Valid()
    ensures r.Ok? ==> lib.owned == GainAll(old(lib.owned), DocHandles(r.value))
    ensures r.Ok? ==> NewDocuments(r.value) && forall d :: d in r.value ==> fresh(d) && d.cachedRoot == null
    ensures r.Err? ==> lib.owned == old(lib.owned)
    ensures lib.log == old(lib.log) + trace
    ensures var parse := Parse(ParseWithConfig, [input, config]);
      if r.Ok? then LoadsDocuments(trace, parse, DocHandles(r.value)) else FailsToParse(trace, parse, r.error)
  {
    hide Library.Valid, Held, Gain, Lose, IsFailure, CollectsDocuments, GainAll, NewDocuments;
    var result := FfiParseWith(lib, input, config);
    trace := [Exchange(Parse(ParseWithConfig, [input, config]), result, "")];
    var check, checked := CheckResult(lib, result);
    if check.Err? {
      GiveBack(old(lib.owned), result, Null);
      ParseFails(trace[0], checked, check.error);
      return Err(check.error), trace + checked;
    }
    var docs, collected := CollectDocuments(lib, result, old(lib.owned));
    trace := trace + checked + collected;
    return Ok(docs), trace;
  }

  method RootOfFirst(lib: Library, docsH: Ptr) returns (valH: Ptr, ghost trace: seq<Exchange>)
    requires lib.Valid() && Held(lib.owned, docsH)
    modifies lib
    ensures lib.Valid() && valH != Null && lib.owned == Gain(old(lib.owned), valH)
    ensures lib.log == old(lib.log) + trace && |trace| == 3
    ensures var dh := trace[0].answer;
      && trace[0].call == Fetch(DocsGet(0), docsH)
      && trace[1] == Exchange(Fetch(DocRoot, dh), valH, "")
      && trace[2] == Exchange(Free(dh), Null, "")
  {
    hide Library.Valid, Held, Gain, Lose;
    var dh := FfiFetch(lib, DocsGet(0), docsH);
    valH := FfiFetch(lib, DocRoot, dh);
    GiveBack(old(lib.owned), dh, valH);
    FfiFree(lib, dh);
    trace := [Exchange(Fetch(DocsGet(0), docsH), dh, ""), Exchange(Fetch(DocRoot, dh), valH, ""),
              Exchange(Free(dh), Null, "")];
  }

  /** First document only; the array and the result are freed. Without a document the code means to
      raise a `ParseError`, but its own import of that name on another path leaves it unbound here. */
  method CollectFirst(lib: Library, result: Ptr, ghost before: multiset<Ref>)
      returns (r: Result<Ptr>, ghost trace: seq<Exchange>)
    requires lib.Valid() && result != Null && lib.owned == Gain(before, result)
    modifies lib
    ensures lib.Valid()
    ensures if r.Ok? then r.value != Null && lib.owned == Gain(before, r.value) else lib.owned == before
    ensures lib.log == old(lib.log) + trace
    ensures if r.Ok? then CollectsFirst(trace, result, r.value)
      else CollectsNone(trace, result) && r.error == UnboundLocalError("ParseError")
  {
    hide Library.Valid, Held, Gain, Lose;
    var docsH := FfiFetch(lib, ResultDocs, result);
    var count := FfiInspect(lib, DocsCount, docsH);
    trace := [Exchange(Fetch(ResultDocs, result), docsH, ""), Exchange(Inspect(DocsCount, docsH), Box(count), "")];
    if count == 0 {
      GiveBack(Gain(before, result), docsH, Null);
      GiveBack(before, result, Null);
      FfiFree(lib, docsH);
      FfiFree(lib, result);
      trace := trace + [Exchange(Free(docsH), Null, ""), Exchange(Free(result), Null, "")];
      return Err(UnboundLocalError("ParseError")), trace;
    }
    var valH, first := RootOfFirst(lib, docsH);
    GiveBack(Gain(before, result), docsH, valH);
    FfiFree(lib, docsH);
    GiveBack(before, result, valH);
    FfiFree(lib, result);
    trace := trace + first + [Exchange(Free(docsH), Null, ""), Exchange(Free(result), Null, "")];
    return Ok(valH), trace;
  }

  method LoadConfiguredSingle(lib: Library, input: string, config: string)
      returns (r: Result<YamlValue>, ghost trace: seq<Exchange>)
    requires lib.Valid()
    modifies lib
    ensures lib.Valid()
    ensures r.Ok? ==> fresh(r.value) && r.value.handle != Null && lib.owned == Gain(old(lib.owned), r.value.handle)
    ensures r.Err? ==> lib.owned == old(lib.owned)
    ensures lib.log == old(lib.log) + trace
    ensures var parse := Parse(ParseWithConfig, [input, config]);
      if r.Ok? then LoadsFirst(trace, parse, r.value.handle)
      else FailsToParse(trace, parse, r.error) ||
           (HasNoDocument(trace, parse) && r.error == UnboundLocalError("ParseError"))
  {
    hide Library.Valid, Held, Gain, Lose, IsFailure, CollectsFirst, CollectsNone;
    var result := FfiParseWith(lib, input, config);
    trace := [Exchange(Parse(ParseWithConfig, [input, config]), result, "")];
    var check, checked := CheckResult(lib, result);
    if check.Err? {
      GiveBack(old(lib.owned), result, Null);
      ParseFails(trace[0], checked, check.error);
      return Err(check.error), trace + checked;
    }
    var first, collected := CollectFirst(lib, result, old(lib.owned));
    trace := trace + checked + collected;
    if first.Err? {
      return Err(first.error), trace;
    }
    var v := new YamlValue(first.value);
    return Ok(v), trace;
  }

  // ----- dropping documents -----

  lemma {:induction false} RefsReplace(hs: seq<Ptr>, k: nat, h: Ptr)
    requires k < |hs| && hs[k] == Null
    ensures Refs(hs[k := h]) == Refs(hs) + One(h)
  {
    var a, b := hs[..k], hs[k + 1..];
    assert hs == a + ([Null] + b) && hs[k := h] == a + ([h] + b);
    RefsAppend(a, [Null] + b);
    RefsAppend(a, [h] + b);
    RefsFirst(Null, b);
    RefsFirst(h, b);
  }

  lemma RefsFirst(h: Ptr, b: seq<Ptr>)
    ensures Refs([h] + b) == One(h) + Refs(b)
  {
    assert ([h] + b)[1..] == b;
  }

  /** What the documents and their cached roots hold on top of `rest`. */
  ghost predicate DocsOwn(lib: Library, ds: seq<YamlDocument>, rest: multiset<Ref>)
    reads lib, ds, Roots(ds)
  {
    lib.owned == GainAll(GainAll(rest, DocHandles(ds)), RootHandles(ds))
  }

  ghost predicate HoldsPair(d: YamlDocument, h: Ptr, p: Ptr)
    reads d, d.cachedRoot
  {
    d.handle == h && RootHandle(d) == p
  }

  /** Dropping the documents, and with them their cached roots, gives back exactly what they held. */
  method DropDocuments(lib: Library, ds: seq<YamlDocument>, ghost rest: multiset<Ref>)
    requires lib.Valid() && NewDocuments(ds) && OwnRoots(ds) && DocsOwn(lib, ds, rest)
    modifies lib, ds, Roots(ds)
    ensures lib.Valid() && lib.owned == rest
    ensures forall i :: 0 <= i < |ds| ==> HoldsPair(ds[i], Null, Null)
  {
    hide Library.Valid, Held, Gain, Lose, GainAll, HoldsPair, RootHandle;
    ghost var hs, roots := DocHandles(ds), RootHandles(ds);
    ghost var cached := seq(|ds|, i requires 0 <= i < |ds| reads ds => ds[i].cachedRoot);
    var k := |ds|;
    assert hs[..k] == hs && roots[..k] == roots;
    Listed(ds, hs, roots);
    while k > 0
      invariant 0 <= k <= |ds| == |hs| == |roots| && lib.Valid()
      invariant forall i :: 0 <= i < |ds| ==> ds[i].cachedRoot == cached[i]
      invariant forall i :: 0 <= i < k ==> HoldsPair(ds[i], hs[i], roots[i])
      invariant forall i :: k <= i < |ds| ==> HoldsPair(ds[i], Null, Null)
      invariant lib.owned == GainAll(GainAll(rest, hs[..k]), roots[..k])
    {
      k := k - 1;
      assert hs[..k + 1] == hs[..k] + [hs[k]] && roots[..k + 1] == roots[..k] + [roots[k]];
      DropDocument(lib, ds[k], rest, hs[..k], roots[..k], hs[k], roots[k]);
    }
    GainNone(rest);
    assert hs[..k] == [] && roots[..k] == [];
  }

  lemma Listed(ds: seq<YamlDocument>, hs: seq<Ptr>, roots: seq<Ptr>)
    requires hs == DocHandles(ds) && roots == RootHandles(ds) && NewDocuments(ds) && OwnRoots(ds)
    ensures forall i :: 0 <= i < |ds| ==> HoldsPair(ds[i], hs[i], roots[i]) && hs[i] != Null
    ensures forall i :: 0 <= i < |ds| && roots[i] == Null ==> ds[i].cachedRoot == null
  {
  }

  /** The document's own handle first, then its root's. */
  method DropDocument(lib: Library, d: YamlDocument, ghost rest: multiset<Ref>,
      ghost hs: seq<Ptr>, ghost roots: seq<Ptr>, ghost h: Ptr, ghost p: Ptr)
    requires lib.Valid() && HoldsPair(d, h, p) && h != Null && (p == Null ==> d.cachedRoot == null)
    requires lib.owned == GainAll(GainAll(rest, hs + [h]), roots + [p])
    modifies lib, d`handle, d.cachedRoot
    ensures lib.Valid() && HoldsPair(d, Null, Null)
    ensures lib.owned == GainAll(GainAll(rest, hs), roots)
  {
    hide Library.Valid, Held, Gain, Lose, GainAll;
    ghost var left := GainAll(GainAll(rest, hs), roots);
    GainMore(rest, hs, h);
    GainMore(GainAll(rest, hs + [h]), roots, p);
    GiveBackUnder(GainAll(rest, hs), h, roots);
    GiveBack(left, h, p);
    GiveBack(left, p, Null);
    d.Del(lib);
    if d.cachedRoot != null {
      d.cachedRoot.Del(lib);
    } else {
      GainNull(left);
    }
  }

  lemma GainNone(owned: multiset<Ref>)
    ensures GainAll(owned, []) == owned
  {
  }

  lemma GainNull(owned: multiset<Ref>)
    ensures Gain(owned, Null) == owned
  {
  }

  /** Reading the root of one document, whether it is cached or not. */
  method UseRoot(lib: Library, ds: seq<YamlDocument>, k: nat, ghost rest: multiset<Ref>) returns (v: YamlValue)
    requires lib.Valid() && NewDocuments(ds) && OwnRoots(ds) && DocsOwn(lib, ds, rest) && k < |ds|
    modifies lib, ds[k]
    ensures lib.Valid() && NewDocuments(ds) && OwnRoots(ds) && DocsOwn(lib, ds, rest)
    ensures v == ds[k].cachedRoot && (v == old(ds[k].cachedRoot) || fresh(v))
  {
    hide Library.Valid, Held, Gain, Lose, GainAll;
    ghost var hs, roots := DocHandles(ds), RootHandles(ds);
    HandleHeld(rest, hs, roots, k);
    v := ds[k].Root(lib);
    assert DocHandles(ds) == hs;
    if v == old(ds[k].cachedRoot) {
      assert RootHandles(ds) == roots;
    } else {
      assert RootHandles(ds) == roots[k := v.handle];
      GainAt(GainAll(rest, hs), roots, k, v.handle);
    }
  }

  lemma GainAt(owned: multiset<Ref>, roots: seq<Ptr>, k: nat, h: Ptr)
    requires k < |roots| && roots[k] == Null
    ensures GainAll(owned, roots[k := h]) == Gain(GainAll(owned, roots), h)
  {
    hide GainAll, Refs, One;
    GainAllAdds(owned, roots);
    GainAllAdds(owned, roots[k := h]);
    RefsReplace(roots, k, h);
  }

  lemma HandleHeld(rest: multiset<Ref>, hs: seq<Ptr>, roots: seq<Ptr>, k: nat)
    requires k < |hs| && hs[k] != Null
    ensures Held(GainAll(GainAll(rest, hs), roots), hs[k])
  {
    hide GainAll, Refs;
    GainAllAdds(rest, hs);
    if hs[k].At? { RefsIn(hs, hs[k].r); }
  }

  /** Reading roots in any order, any number of times. */
  method UseRoots(lib: Library, ds: seq<YamlDocument>, uses: seq<nat>, ghost rest: multiset<Ref>)
    requires lib.Valid() && NewDocuments(ds) && OwnRoots(ds) && DocsOwn(lib, ds, rest)
    modifies lib, ds
    ensures lib.Valid() && NewDocuments(ds) && OwnRoots(ds) && DocsOwn(lib, ds, rest)
    ensures forall d :: d in ds ==> d.cachedRoot == old(d.cachedRoot) || fresh(d.cachedRoot)
  {
    hide Library.Valid, OwnRoots, DocsOwn, NewDocuments;
    for i := 0 to |uses|
      invariant lib.Valid() && NewDocuments(ds) && OwnRoots(ds) && DocsOwn(lib, ds, rest)
      invariant forall d :: d in ds ==> d.cachedRoot == old(d.cachedRoot) || fresh(d.cachedRoot)
    {
      if uses[i] < |ds| {
        var v := UseRoot(lib, ds, uses[i], rest);
      }
    }
  }

  lemma NoRoots(lib: Library, ds: seq<YamlDocument>, rest: multiset<Ref>)
    requires lib.owned == GainAll(rest, DocHandles(ds)) && forall d :: d in ds ==> d.cachedRoot == null
    ensures OwnRoots(ds) && DocsOwn(lib, ds, rest)
  {
    GainNulls(GainAll(rest, DocHandles(ds)), RootHandles(ds));
  }

  lemma {:induction false} GainNulls(owned: multiset<Ref>, hs: seq<Ptr>)
    requires forall h :: h in hs ==> h == Null
    ensures GainAll(owned, hs) == owned
  {
    hide Held;
    if hs != [] {
      var front, last := hs[..|hs| - 1], hs[|hs| - 1];
      assert last in hs && forall h :: h in front ==> h in hs;
      GainNulls(owned, front);
      GainNull(owned);
    }
  }

  /** Loading every document, reading any of their roots and dropping everything leaves the client
      with exactly the handles it had; an error leaves nothing either. */
  method LoadUseDrop(lib: Library, input: string, limits: string, uses: seq<nat>)
    requires lib.Valid()
    modifies lib
    ensures lib.Valid() && lib.owned == old(lib.owned)
  {
    hide Library.Valid, GainAll, NewDocuments, DocHandles;
    var r, _ := LoadAll(lib, input, limits);
    if r.Ok? {
      var docs := r.value;
      forall i | 0 <= i < |docs| ensures fresh(docs[i]) { assert docs[i] in docs; }
      UseAndDrop(lib, docs, uses, old(lib.owned));
    }
  }

  /** The same for the configured loader. */
  method LoadConfiguredUseDrop(lib: Library, input: string, config: string, uses: seq<nat>)
    requires lib.Valid()
    modifies lib
    ensures lib.Valid() && lib.owned == old(lib.owned)
  {
    hide Library.Valid, GainAll, NewDocuments, DocHandles;
    var r, _ := LoadConfiguredAll(lib, input, config);
    if r.Ok? {
      var docs := r.value;
      forall i | 0 <= i < |docs| ensures fresh(docs[i]) { assert docs[i] in docs; }
      UseAndDrop(lib, docs, uses, old(lib.owned));
    }
  }

  method UseAndDrop(lib: Library, ds: seq<YamlDocument>, uses: seq<nat>, ghost rest: multiset<Ref>)
    requires lib.Valid() && lib.owned == GainAll(rest, DocHandles(ds))
    requires NewDocuments(ds) && forall d :: d in ds ==> d.cachedRoot == null
    modifies lib, ds
    ensures lib.Valid() && lib.owned == rest
  {
    hide Library.Valid, OwnRoots, DocsOwn, NewDocuments, GainAll;
    NoRoots(lib, ds, rest);
    UseRoots(lib, ds, uses, rest);
    DropDocuments(lib, ds, rest);
  }
}
