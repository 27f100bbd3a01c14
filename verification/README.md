# L4YAML around the kernel: a verified model

The YAML parser of L4YAML is a Lean program. This project models the C, C++ and Python code
around it and proves what that code promises:

* **Handles and reference counts** (`LeanHeap`, `KernelCall`, `Shim`, `ShimAnswers`, `CApi`, `PyHandles`,
  `RaiiHandle`). The heap of immutable Lean objects with counts and the cascading `lean_dec`; every
  function of the C shim as a step of a session (heap, thread-local string slot, handles the client
  owns); the same functions as methods that overwrite the heap in place; the Python wrappers and
  loaders on top of them; the C++ owning wrapper. The main results: counts are exactly the holders in every
  reachable session, freeing is exact garbage collection, nothing leaks, a returned string and the
  tree under a kept handle stay as they are, every call returns what the kernel answered to its own
  request, and every loader path asks for what it should and gives back what it took.
* **The rename tool** (`RenameScan`, `RenameApply`, `RenameRescan`, `RenameTool`, `RenameLexer`,
  `RenameNames`). The scanner for `theorem` keywords and what counts as one, the `--apply` splice, and a simulation between the scan of the
  old text and the scan of the new one, for every text and every whitelist.
* **Type-faithful YAML** (`YamlScalar`, `YamlScalarReads`, `YamlPrinter`, `YamlReader`,
  `YamlRoundTrip`, `YamlText`, `YamlFidelity`, `YamlResolution`). The printer behind `safe_dump`, a reader for the block subset written
  from YAML 1.2.2 (sections 5.7, 7.3.1, 7.3.2, 7.3.3, 7.4.1, 7.4.2, 8.2.1 and 8.2.2), scalar
  resolution, and exactly which values come back.
* **The page outline** (`HeadingOutline`, `BodyExtractor`). Heading renumbering against the outline
  tree, and the tag-counting filter against pruning a tree.
* **The test-suite front end** (`SuiteParser`, `SuiteRoundTrip`, `SuiteFields`, `LeanLiteral`) and the **import gate**
  (`ImportClosure`).

`Prelude` holds optional values and the line operations several of these share.

## How the model is set up

* The Lean kernel is a parameter: any function from a heap and a request to a list of newly built
  objects and a result, provided the result has the shape its declaration promises. Consuming the
  arguments and handing over an owned result is what `KernelCall.Invoke` adds. `KernelCall.EmptyAnswerConforms`
  shows that such kernels exist. `Option.none` is the boxed scalar 0, as in the Lean runtime, so
  counting operations ignore it.
* Objects get fresh numbers and fields name smaller ones, because Lean builds objects bottom-up. The
  number is the rank by which no cycle can keep itself alive.
* `int(s, 0)`, `float(s)`, `repr` of a finite float and key equality are parameters of the YAML model.
  `YamlScalar.Inverts` says that printed numbers are recognised again, and `YamlFidelity.NumbersLookIt`
  that no string with a quote, a colon or a dangling minus sign is taken for a number, as in Python;
  nothing else is assumed of them, and `YamlFidelity.RecognisersExist` shows that both can be met.
  A finite float is an opaque number (its bit pattern), so rounding does not enter.
* Where the code loops or mutates, the model has a method or a class proved equal to a specification
  function; the properties are lemmas about that function.
* `CApi.Library.log` records every call of the C API with its answer; the Python methods state the
  calls they make, in order, as that log grows.
* A dictionary is its list of items; a Python string is a sequence of Unicode scalar values.

Where the code and its documentation differ, the model follows the code:

* `ffi/l4yaml.h:14-19` and `ffi/l4yaml_shim.c:91-93` end the life of a returned string at `l4yaml_free` of its owner. The
  slot holds its own reference, so it lives on until the next returned string (`Shim.StringLifetime`).
* `python/l4yaml/compat.py:495` does not double a quote inside single quotes, which section 7.3.2 asks
  for. Strings that `int` or `float` accept are single-quoted as they are, line feeds included.
  Both families are outside the domain, and proved to be (`YamlScalarReads.TokenRoundTrip`, `YamlFidelity.NumberWithLineFeed`).
* The printer writes keys of any length; section 7.4.2 allows 1024 characters, which
  `L4YAML/YAML_PRODUCTIONS.md:619` repeats (`YamlFidelity.LongKeyLost`).
* `scripts/rename_lemma.py:12` promises an in-place rewrite that leaves whitelisted sites alone. A whitelisted name that itself
  contains the word `theorem` can still be rewritten from inside (`RenameTool.KeptNameRewritten`).
* `scripts/html-to-pdf.py:136-150` says that droppable elements are removed, `<script>` among them. A
  droppable element written `<t/>` is kept (`BodyExtractor.SelfClosedScriptStays`), and a droppable void
  element takes the rest of the body with it (`BodyExtractor.DroppableVoidSwallows`).
* `python/l4yaml/compat.py:192` means to raise a `ParseError` for an input without documents. The import in the
  same function (line 181) makes that name local, and it is unbound on this path, so Python raises an
  `UnboundLocalError` (`PyHandles.LoadConfiguredSingle`).
* `gen-suite-guards.py:216` declares a string result and returns the list of pieces; the caller joins it.

## Model

| member | source | states |
|---|---|---|
| LeanHeap.DecBalanced | ffi/l4yaml_shim.c:370-373 | giving up references leaves exactly the counts of the remaining holders |
| LeanHeap.DecStepSurplus | ffi/l4yaml_shim.c:370-373 | one decrement, freeing or not, keeps every count's surplus over its references and lowers the total, so every cascade ends |
| LeanHeap.DecIsTracing | ffi/l4yaml_shim.c:370-373 | a cascading decrement is an exact garbage collection: the survivors are what the remaining holders reach in the old heap, unchanged |
| LeanHeap.LiveIsReachable | ffi/l4yaml_shim.c:11-19 | in a balanced heap every live object is reached from a holder, by the rank of the object graph |
| LeanHeap.NoHolderNoObject | ffi/l4yaml_shim.c:370-373 | no holder, no live object |
| KernelCall.InvokeBalanced | ffi/l4yaml_shim.c:11-19 | a kernel call consumes its arguments, hands over an owned result of the declared shape, and keeps every other count balanced |
| KernelCall.EmptyAnswerConforms | ffi/l4yaml_shim.c:36-87 | kernels that meet the declared conventions exist |
| Shim.CaptureBalanced | ffi/l4yaml_shim.c:97-102 | capturing drops the old string and keeps the new one live, also when both are the same object |
| Shim.ExtractBalanced | ffi/l4yaml_shim.c:109-118 | an option is unwrapped without losing or keeping a count: none leaves the slot, some puts its string there |
| Shim.StepParse | ffi/l4yaml_shim.c:180-188 | parsing gives the client one owned non-null handle; slot and invariant are kept |
| Shim.StepInspect | ffi/l4yaml_shim.c:195-198 | inspection returns a number and leaves handles and slot as they were |
| Shim.StepFetch | ffi/l4yaml_shim.c:200-208 | a child handle is owned separately; the parent's stays |
| Shim.StepLookup | ffi/l4yaml_shim.c:283-296 | a lookup adds exactly the handle it returns, none for null |
| Shim.StepText | ffi/l4yaml_shim.c:252-256 | a string accessor leaves its string in the slot and the handles as they were |
| Shim.StepOptText | ffi/l4yaml_shim.c:298-308 | tag and anchor replace the slot only when they return a string |
| Shim.StepError | ffi/l4yaml_shim.c:210-221 | error readers return null for null and for an empty message, and otherwise a non-empty captured text |
| Shim.StepFree | ffi/l4yaml_shim.c:370-373 | freeing takes exactly one reference from the client, nothing for null |
| Shim.StepFinalize | ffi/l4yaml_shim.c:135-141 | shutdown empties the slot and keeps the balance |
| Shim.Step | ffi/l4yaml_shim.c:180-373 | every legal call keeps the invariant, changes ownership by its own table, never alters a surviving object and never reuses a number |
| Shim.ReachableSessions | ffi/l4yaml_shim.c:95-118 | in every reachable session each count is client handles, plus references from live objects, plus the slot; live means reachable from a holder; every owned handle is live |
| Shim.NoLeak | ffi/l4yaml_shim.c:135-141 | when all handles are freed and the library is finalized the heap is empty |
| Shim.FreeIsTracing | ffi/l4yaml_shim.c:370-373 | after a free the live objects are exactly those still reached, unchanged |
| Shim.StringLifetime | ffi/l4yaml_shim.c:95-102 | a returned string stays live and unchanged through any run of calls that returns no string and does not finalize |
| Shim.HandleKeepsItsTree | ffi/l4yaml.h:9-12 | while a handle is kept, everything it leads to stays live and unchanged, whatever else is freed |
| ShimAnswers.ParseAnswer | ffi/l4yaml_shim.c:180-188 | a parse hands its texts to the kernel, in order, with nothing live changed, and returns the kernel's result, live and as the kernel described it |
| ShimAnswers.InspectAnswer | ffi/l4yaml_shim.c:195-198 | an inspection returns the kernel's number for that operation and handle |
| ShimAnswers.FetchAnswer | ffi/l4yaml_shim.c:200-208 | a child handle is the kernel's result for that operation and handle, live and as described |
| ShimAnswers.LookupAnswer | ffi/l4yaml_shim.c:283-296 | null if and only if the kernel answers `Option.none`; otherwise the one field of the option it answers with, live and as described |
| ShimAnswers.TextAnswer | ffi/l4yaml_shim.c:252-256 | a string accessor returns the kernel's string, live and as described |
| ShimAnswers.OptTextAnswer | ffi/l4yaml_shim.c:298-308 | tag and anchor: null if and only if the kernel answers none, otherwise the string in its option |
| ShimAnswers.ErrorAnswer | ffi/l4yaml_shim.c:210-221 | for a non-null handle: null if and only if the kernel's message is empty, otherwise that message |
| ShimAnswers.StepAnswer | ffi/l4yaml_shim.c:180-346 | every call that asks the kernel passes on its own operation, handle and texts on the heap as it was, and returns what the kernel answered |
| CApi.Library.LeanDec | ffi/l4yaml_shim.c:370-373 | the worklist loop over the heap in place computes the cascading decrement |
| CApi.Library.Capture | ffi/l4yaml_shim.c:97-102 | the slot is overwritten as specified, the old string released first |
| CApi.Library.ExtractOption | ffi/l4yaml_shim.c:109-118 | the option is unwrapped in place as specified |
| CApi.Library.L4yamlFinalize | ffi/l4yaml_shim.c:135-141 | the method is the finalize step |
| CApi.Library.ParseOne | ffi/l4yaml_shim.c:180-188 | parse, parse_single and parse_limits_yaml are the parse step |
| CApi.Library.ParseConfigured | ffi/l4yaml_shim.c:353-358 | two strings are made and both consumed |
| CApi.Library.InspectHandle | ffi/l4yaml_shim.c:225-228 | increment, then consume: the inspection step |
| CApi.Library.FetchHandle | ffi/l4yaml_shim.c:230-238 | increment, then consume: the fetch step |
| CApi.Library.ValueLookup | ffi/l4yaml_shim.c:283-296 | the lookup step, option unwrapped in place |
| CApi.Library.ReadText | ffi/l4yaml_shim.c:312-322 | value_string, dump, dump_docs and dump_configured are the string step |
| CApi.Library.ReadOptText | ffi/l4yaml_shim.c:298-308 | tag and anchor are the optional string step |
| CApi.Library.ReadError | ffi/l4yaml_shim.c:336-346 | both error readers are the error step |
| CApi.Library.L4yamlFree | ffi/l4yaml_shim.c:370-373 | the free step, a no-op on null |
| PyHandles.YamlValue.Del | python/l4yaml/types.py:57-61 | the handle is given back once and cleared |
| PyHandles.YamlValue.AsList | python/l4yaml/types.py:107-122 | a sequence of n items: item i holds the answer to `seq_get(i)`, each in an owned wrapper of its own; another kind: nothing more is asked and nothing owned |
| PyHandles.YamlValue.RawItems | python/l4yaml/types.py:178-194 | a mapping of n entries: keys and values alternate and hold the answers to `map_key(i)` and `map_val(i)`, each owned; another kind: nothing more is asked and nothing owned |
| PyHandles.YamlValue.Contains | python/l4yaml/types.py:250-258 | true if and only if the value is a mapping and the lookup of the key answers a handle, which is freed again |
| PyHandles.YamlDocument.Root | python/l4yaml/types.py:317-323 | the first use acquires the answer to `doc_root`, later uses ask nothing and return the same object |
| PyHandles.DropValues | python/l4yaml/types.py:57-61 | dropping a list of values returns the count to what it was before them |
| PyHandles.UseRoots | python/l4yaml/types.py:317-323 | reading the roots of documents in any order, any number of times, acquires one handle per cached root and no more |
| PyHandles.DropDocuments | python/l4yaml/types.py:306-315 | dropping documents with their cached roots returns the count to what it was before them |
| PyHandles.CheckResult | python/l4yaml/__init__.py:68-78 | for a failed result the message is read before the result is freed, and the error is the one that message calls for; a good one is only inspected |
| PyHandles.ErrorForMeans | python/l4yaml/__init__.py:76-78 | a limit error if and only if the message says `limit` or `exceeded` in any capitalisation |
| PyHandles.PresetTable | python/l4yaml/__init__.py:48-65 | the five preset names with their numbers, and an error for every other name |
| PyHandles.Load | python/l4yaml/__init__.py:84-108 | the value is `result_value` of the single-document parse under the preset of that name; exactly its handle is left, nothing on any error path |
| PyHandles.LoadAll | python/l4yaml/__init__.py:111-138 | document i holds the answer to `docs_get(i)` on the array of the parse, for every i below the count; exactly these handles are left, each document an object of its own without a cached root; nothing on any error path |
| PyHandles.LoadConfiguredSingle | python/l4yaml/compat.py:168-198 | the value is `doc_root` of `docs_get(0)` of the configured parse; exactly its handle is left, nothing on any error path, the one without documents included |
| PyHandles.LoadConfiguredAll | python/l4yaml/compat.py:201-228 | as `LoadAll`, for the configured parse |
| PyHandles.LoadUseDrop | python/l4yaml/__init__.py:111-138 | loading all documents, reading any of their roots and dropping everything leaves exactly the handles there were, also when loading fails |
| PyHandles.LoadConfiguredUseDrop | python/l4yaml/compat.py:201-228 | the same for the configured loader |
| PyHandles.GainAllAdds | python/l4yaml/types.py:12-14 | a list of wrappers owns the sum of its handles |
| RaiiHandle.L4YAMLHandle.MoveAssign | ffi/l4yaml_raii.hpp:43-52 | the old handle is freed, the other's is taken and cleared; self-assignment changes nothing |
| RaiiHandle.L4YAMLHandle.Reset | ffi/l4yaml_raii.hpp:65-70 | the old handle is freed and the new one stored |
| RaiiHandle.L4YAMLHandle.Release | ffi/l4yaml_raii.hpp:58-62 | the handle is given up without freeing |
| RaiiHandle.L4YAMLHandle.Move | ffi/l4yaml_raii.hpp:38-40 | the handle moves and the source is cleared |
| RaiiHandle.L4YAMLHandle.Destroy | ffi/l4yaml_raii.hpp:27-31 | a held handle is freed, null is not |
| RaiiHandle.StepConserves | ffi/l4yaml_raii.hpp:24-70 | every operation keeps each acquired reference in exactly one place: client, wrapper or freed |
| RaiiHandle.OwnedOnce | ffi/l4yaml_raii.hpp:33-52 | after any interleaving a handle acquired once is in at most one wrapper, and then neither freed nor loose |
| RaiiHandle.AllFreed | ffi/l4yaml_raii.hpp:26-31 | with all wrappers gone and nothing loose, each handle was freed as often as acquired |
| RaiiHandle.ResetSoundIffHeld | ffi/l4yaml_raii.hpp:65-70 | `reset` keeps the books exactly when its argument is null or held loose by the client |
| RaiiHandle.SelfResetFreesTwice | ffi/l4yaml_raii.hpp:65-70 | resetting a wrapper to its own handle frees that handle twice |
| RaiiHandle.Program.Do | ffi/l4yaml_raii.hpp:24-70 | on live wrapper objects each method is the operation of the transition system |
| RaiiHandle.Program.Execute | ffi/l4yaml_raii.hpp:24-70 | so any program of enabled operations reaches the state the run reaches, which `OwnedOnce` and `AllFreed` are about |
| RenameScan.DeclNameAfter | scripts/rename_lemma.py:59-81 | the loop over components reads the dotted name |
| RenameScan.ScanFile | scripts/rename_lemma.py:84-155 | the index loop with its flags finds the sites of the scan |
| RenameApply.NameAllowed | scripts/rename_lemma.py:47-56 | true exactly when some entry of the file matches, by name or by prefix |
| RenameApply.NameCorresponds | scripts/rename_lemma.py:59-81 | before and after the rewrite a name is read at the same places, its pieces and no more; it keeps its length, and then its text, only if no keyword inside was rewritten |
| RenameApply.NameLocal | scripts/rename_lemma.py:59-81 | the text of a name is read as that name whatever follows it |
| RenameApply.StarAllows | scripts/rename_lemma.py:51-55 | an entry with a trailing `*` allows, in its file, exactly the names that begin with the rest of it |
| RenameApply.PlainAllows | scripts/rename_lemma.py:51-55 | any other entry allows exactly its own name |
| RenameNames.CharacterSets | scripts/rename_lemma.py:32-33 | the character classes are these characters, written out, and no others |
| RenameNames.NameIsRead | scripts/rename_lemma.py:59-81 | every dotted name of identifier runs and components in guillemets, followed by anything that does not continue it, is read as that name and its length |
| RenameNames.NameParses | scripts/rename_lemma.py:59-81 | and whatever is read as a name is one of these |
| RenameNames.SiteIff | scripts/rename_lemma.py:142-154 | in code, `theorem`, blanks and such a name are a site under that name if and only if the character before is no identifier character, dot or backtick; the scan goes on behind the keyword |
| RenameNames.SiteNeeds | scripts/rename_lemma.py:142-154 | a site found where code is read is such a declaration |
| RenameNames.KeywordWithoutName | scripts/rename_lemma.py:142-154 | a keyword without a name is passed over |
| RenameNames.OrdinaryCharacter | scripts/rename_lemma.py:91-154 | any other character of code is passed over by itself |
| RenameNames.LoneQuote | scripts/rename_lemma.py:130-141 | so is a quote that closes nothing |
| RenameRescan.StepCorresponds | scripts/rename_lemma.py:91-154 | an unedited scanner step is the same step on the rewritten text, lookahead across rewritten keywords included |
| RenameRescan.Simulate | scripts/rename_lemma.py:84-155 | from matching states the second scan shows the kept sites at shifted offsets and no other |
| RenameRescan.SpliceIsNew | scripts/rename_lemma.py:190-197 | splicing at the edits is replacing exactly those keywords |
| RenameTool.SpliceLoop | scripts/rename_lemma.py:190-196 | the `out`/`prev` loop builds the splice |
| RenameTool.SpliceMeans | scripts/rename_lemma.py:190-196 | at each edit the seven characters are replaced by `lemma`, everything between is copied |
| RenameTool.EditsExact | scripts/rename_lemma.py:181-189 | the edits are exactly the sites that are not whitelisted, in order |
| RenameTool.ApplyFile | scripts/rename_lemma.py:180-198 | the new text, the kept count and the renamed count of one file |
| RenameTool.RescanAfterApply | scripts/rename_lemma.py:84-155 | for every text and whitelist the rescan gives the kept sites two characters earlier per rewritten keyword before them, each under the name read from its old name with the edits inside made, which is the old name if and only if there are none |
| RenameTool.NothingLeft | scripts/rename_lemma.py:7-12 | under an empty whitelist no `theorem` site is left |
| RenameTool.FixpointIff | scripts/rename_lemma.py:47-56 | the rescan is exactly the kept sites with the same names if and only if no edit lies inside a kept name |
| RenameTool.ApplyChangesNothingIff | scripts/rename_lemma.py:180-198 | `--apply` leaves a file as it is if and only if `--check` has nothing to report, that is every site is whitelisted |
| RenameTool.ApplyTwiceIff | scripts/rename_lemma.py:181-198 | after `--apply`, `--check` passes and a second `--apply` changes nothing if and only if every kept site with an edit inside its name is also whitelisted under the name the edits leave, which the old text decides |
| RenameTool.ApplyTwice | scripts/rename_lemma.py:181-198 | in particular when no kept name was touched |
| RenameTool.KeptNameRewritten | scripts/rename_lemma.py:181-198 | a concrete file where a kept name is edited from inside: the rescan shows it under its new name, `--check` reports it, and a second `--apply` rewrites it too |
| RenameLexer.LineCommentSkipped | scripts/rename_lemma.py:94-98 | for every text after `--`: the scan resumes after the line end, or shows no site if there is none |
| RenameLexer.BlockCommentSkipped | scripts/rename_lemma.py:99-108 | a block comment is skipped as a whole, comments nested in it to any depth, its text free but for the two markers |
| RenameLexer.BlockCommentOrNothing | scripts/rename_lemma.py:99-108 | for every text after an opening marker: it starts with such a comment, which is skipped, or no site is found in it at all |
| RenameLexer.ReadPartsSound | scripts/rename_lemma.py:99-108 | what is skipped is a comment of the grammar, `/-- -/` and `/-! -/` comments included |
| RenameLexer.LiteralSkipped | scripts/rename_lemma.py:109-117 | a string literal of any plain characters and backslash pairs, line feeds included, is stepped over |
| RenameLexer.LiteralOrNothing | scripts/rename_lemma.py:109-117 | for every text after an opening quote: its literal is stepped over, or no site is found in it at all |
| RenameLexer.GeneratedSkipped | gen-suite-guards.py:252-255 | every generated literal is such a literal |
| RenameLexer.CharLiteralSkipped | scripts/rename_lemma.py:130-141 | `'c'` is stepped over for every character, a double quote included |
| RenameLexer.EscapedCharSkipped | scripts/rename_lemma.py:130-141 | so is an escaped character |
| RenameLexer.PrimeIsIdent | scripts/rename_lemma.py:130-131 | after an identifier a quote opens nothing |
| YamlScalar.EscapeIsOnePass | python/l4yaml/compat.py:490-494 | the five replacements in turn equal one simultaneous escape per character |
| YamlScalar.EscapedIsOneLine | python/l4yaml/compat.py:490-494 | no raw line feed, carriage return or tab is left |
| YamlScalarReads.DoubleDecodes | python/l4yaml/compat.py:488-494 | decoding by section 5.7 inverts the escapes for every string the reader accepts, ending at the closing quote, and rejects every other |
| YamlScalarReads.SingleWithQuote | python/l4yaml/compat.py:495 | single-quoted content with a quote inside never reads back as itself |
| YamlScalarReads.PlainStaysString | python/l4yaml/compat.py:467-498 | a string left plain resolves to itself, for any recognisers |
| YamlScalarReads.BareScalar | python/l4yaml/compat.py:52-86 | null, booleans, ints and floats resolve back from what is printed for them |
| YamlResolution.ResolutionTable | python/l4yaml/compat.py:43-86 | for every string: null, true and false for exactly their spellings; otherwise infinities and NaN for theirs, the integer or float its recogniser gives where the first character allows it, or the string itself |
| YamlResolution.ReaderCharacters | L4YAML/Spec/CharPredicates.lean:789-823 | the characters the reader accepts, by number; the byte order mark is kept out of plain scalars |
| YamlResolution.UnescapeTable | L4YAML/YAML_PRODUCTIONS.md:80-95 | the one-character escapes of section 5.7 and no others |
| YamlResolution.PlainIff | L4YAML/YAML_PRODUCTIONS.md:170-177 | exactly the one-line plain scalars of section 7.3.3 |
| YamlResolution.MarkerIff | L4YAML/YAML_PRODUCTIONS.md:254-257 | exactly the lines that begin with a document marker |
| YamlResolution.SpellingsLoad | python/l4yaml/compat.py:52-86 | the same spellings as one-line texts, through loading |
| YamlResolution.PlainLineLoads | python/l4yaml/compat.py:89-97 | every plain one-line text loads as what it resolves to |
| YamlResolution.PlainEntryLoads | python/l4yaml/compat.py:119-123 | a line `key: value` loads as the dictionary of what both sides resolve to |
| YamlResolution.FormTable | python/l4yaml/compat.py:467-498 | from the string alone: single quotes, double quotes or plain |
| YamlResolution.QuotingTable | python/l4yaml/compat.py:467-498 | and the text that is written for it |
| YamlResolution.EscapeTable | python/l4yaml/compat.py:490-494 | the escape of every character |
| YamlResolution.PrintTable | python/l4yaml/compat.py:440-464 | what is printed for null, booleans, floats and integers, whose digits are the canonical decimal |
| YamlResolution.LayoutExample | python/l4yaml/compat.py:501-535 | a value with nested and empty collections as it is laid out |
| YamlResolution.InsertTable | python/l4yaml/compat.py:119-123 | assigning to a key that is there replaces the value and keeps the place, another key goes last |
| YamlResolution.DictInOrder | python/l4yaml/compat.py:119-123 | distinct keys are kept in their order |
| YamlScalarReads.TokenRoundTrip | python/l4yaml/compat.py:89-97 | a printed scalar reads and resolves to itself if and only if it is in the domain |
| YamlScalarReads.KeyRoundTrip | python/l4yaml/compat.py:521-527 | the same for a key, whose colon is found, if and only if it is also at most 1024 characters long as printed |
| YamlPrinter.PythonToYaml | python/l4yaml/compat.py:440-464 | the dispatch on types prints the specified text |
| YamlPrinter.DumpSequence | python/l4yaml/compat.py:501-513 | the loop over items joins the specified lines |
| YamlPrinter.DumpMapping | python/l4yaml/compat.py:516-535 | the loop over entries joins the specified lines |
| YamlRoundTrip.BlockReads | python/l4yaml/compat.py:501-535 | the lines of a nested value are read back as that value if and only if it is in the domain, and what follows is left |
| YamlRoundTrip.DictSize | python/l4yaml/compat.py:119-123 | building the dictionary keeps every item if and only if no key is repeated |
| YamlText.CutBlock | python/l4yaml/compat.py:501-535 | splitting the printed text gives the printed lines with their indentation |
| YamlFidelity.NumberWithLineFeed | python/l4yaml/compat.py:475-485 | a string with a line feed that Python takes for a number is printed over two lines, and no value that holds one, at any depth, as key or as value, comes back |
| YamlFidelity.RoundTrip | python/l4yaml/compat.py:440-535 | for every value: loading the printed text gives the value, types and key order included, if and only if its scalars are in the domain, its keys distinct and at most 1024 characters long, and nothing at the margin is a document marker |
| YamlFidelity.LongKeyLost | python/l4yaml/compat.py:526-527 | a longer key is printed all the same and its dictionary does not come back |
| YamlFidelity.DomainComesBack | python/l4yaml/compat.py:386-393 | every value of the domain comes back, without assuming what numbers look like |
| YamlFidelity.RecognisersExist | python/l4yaml/compat.py:475-485 | recognisers that meet the two conditions exist |
| HeadingOutline.RenumberHeadings | scripts/html-to-pdf.py:65-83 | the pass over the tags with its two stacks is the specified rewriting |
| HeadingOutline.AssignedIsDepth | scripts/html-to-pdf.py:72-78 | the level assigned is one more than that of the nearest earlier heading with a smaller original level, 1 if there is none |
| HeadingOutline.OpensAssigned | scripts/html-to-pdf.py:68-78 | opening tags get their levels independently of the closing tags |
| HeadingOutline.NoSkips | scripts/html-to-pdf.py:52-64 | levels start at 1 and never skip |
| HeadingOutline.OutlineKept | scripts/html-to-pdf.py:57-64 | every heading keeps its parent |
| HeadingOutline.Idempotent | scripts/html-to-pdf.py:57-64 | renumbering twice is renumbering once |
| HeadingOutline.Least | scripts/html-to-pdf.py:57-64 | the levels are the smallest positive ones with the same outline, the original ones included |
| HeadingOutline.PageRenumbered | scripts/html-to-pdf.py:69-83 | on nested headings every closing tag gets its opening tag's level |
| HeadingOutline.ClosingTags | scripts/html-to-pdf.py:68-71 | on any page, nested or not, a closing tag gets the level given to its own opening tag, found by pairing backwards, and keeps its level if it has none |
| BodyExtractor.Extractor.HandleStartTag | scripts/html-to-pdf.py:175-195 | the method is the start tag transition |
| BodyExtractor.Extractor.HandleStartEndTag | scripts/html-to-pdf.py:197-204 | the method is the self-closing tag transition |
| BodyExtractor.Extractor.HandleEndTag | scripts/html-to-pdf.py:206-222 | the method is the end tag transition |
| BodyExtractor.Extractor.HandleData | scripts/html-to-pdf.py:224-230 | the method is the text transition |
| BodyExtractor.Extractor.Feed | scripts/html-to-pdf.py:240-243 | feeding a list of events is the run of the transitions |
| BodyExtractor.ExtractBody | scripts/html-to-pdf.py:240-243 | a fresh extractor fed with a page gives the body of that run |
| BodyExtractor.DropIff | scripts/html-to-pdf.py:160-173 | exactly which tags, ids and classes are dropped, the last attribute of a name counting |
| BodyExtractor.TagForms | scripts/html-to-pdf.py:190-220 | the written tags, attribute by attribute; a bare attribute is written with the value `None` |
| BodyExtractor.HeadIsCopied | scripts/html-to-pdf.py:175-230 | the head content is the head of the page as it is, whatever comes before and behind it |
| BodyExtractor.SkipNode | scripts/html-to-pdf.py:182-185 | inside a dropped element nested elements of the same name leave the count as it was |
| BodyExtractor.KeepNodes | scripts/html-to-pdf.py:175-230 | elsewhere, without a droppable void element, the filter writes the tree without its droppable containers |
| BodyExtractor.FilterIsPruning | scripts/html-to-pdf.py:135-230 | on every page the filter ends with nothing being dropped and with exactly the pruned tree written if and only if no droppable void element and no droppable self-closed element stands outside droppable containers; with self-closed ones alone the output is longer by them |
| BodyExtractor.AllSurplus | scripts/html-to-pdf.py:197-204 | what passes is the pruned tree and its droppable self-closed elements, counted |
| BodyExtractor.AllPrunePassed | scripts/html-to-pdf.py:197-204 | removing the droppable elements from what passes gives the pruned tree |
| BodyExtractor.SelfClosedScriptStays | scripts/html-to-pdf.py:150-204 | `<script/>` should be dropped and is written |
| BodyExtractor.DroppableVoidSwallows | scripts/html-to-pdf.py:186-189 | the first droppable void element outside droppable containers swallows everything after it in the body: the output stops there |
| LeanLiteral.LeanEscapeString | gen-suite-guards.py:216-249 | one piece per character, together the escaped text |
| LeanLiteral.LeanStringLiteral | gen-suite-guards.py:252-255 | the pieces between quotes |
| LeanLiteral.LiteralReads | gen-suite-guards.py:216-255 | reading a literal gives back its string and ends at its own closing quote, whatever follows; in a grammar without the `\0` escape the encoder assumes, if and only if the string has no null character |
| LeanLiteral.LiteralIsSafe | gen-suite-guards.py:236-248 | the literal holds only printable ASCII and characters beyond the basic plane |
| LeanLiteral.EscapeForms | gen-suite-guards.py:216-249 | six short escapes, two upper-case digits for the other control characters, four up to the end of the basic plane, and every other character as it is |
| SuiteParser.Parser.FinalizeItem | gen-suite-guards.py:70-77 | the method is the filing transition |
| SuiteParser.Parser.ProcessBlockLine | gen-suite-guards.py:79-91 | the method is the block line transition |
| SuiteParser.Parser.ProcessKeyValue | gen-suite-guards.py:93-121 | the method is the key transition |
| SuiteParser.Parser.ProcessLine | gen-suite-guards.py:123-167 | the method is the line transition |
| SuiteParser.ParseTestFile | gen-suite-guards.py:58-172 | the loop over lines, the final filing and the ids |
| SuiteRoundTrip.CaseReads | gen-suite-guards.py:123-167 | the lines of a case add that case, with its variant; skipped blocks before, between and behind its fields change nothing, whatever their lines say |
| SuiteRoundTrip.BadBlock | gen-suite-guards.py:79-91 | a block that is not in order is read with less text than it has |
| SuiteRoundTrip.RoundTrip | gen-suite-guards.py:58-172 | parsing a written file, with texts as blocks or behind their key and any skipped blocks in order, gives the cases back, case k as variant k, if and only if names are tight, tag lists survive their line, neither holds a line feed, texts behind their key are tight and do not start with a vertical bar, and text blocks are in order |
| SuiteRoundTrip.FinalLineFeed | gen-suite-guards.py:122-132 | a written file with a final line feed gives the same cases; if its last block is a tree, that tree has an empty line more |
| SuiteFields.AnyLayout | gen-suite-guards.py:58-172 | for every file of items and separators, fields in any order and number, at any indentation below four, blocks of any depth from four, unknown keys, `key:value` after a dash and stray lines: one case per item, each field as its last occurrence sets it; fields behind a separator belong to no case |
| SuiteFields.BlockOf | gen-suite-guards.py:79-91 | the first line that starts with a space sets the depth; each line adds what is inside the depth and a line feed, one of white space only the line feed |
| SuiteFields.SpaceTable | gen-suite-guards.py:97 | the white space that stripping removes, character by character |
| SuiteFields.StripIs | gen-suite-guards.py:97 | stripping leaves the tight middle of a text |
| SuiteFields.WordsAre | gen-suite-guards.py:101 | splitting finds the tags, whatever the gaps between them |
| ImportClosure.Orphans | scripts/check_import_closure.py:34-49 | the search ends on every graph and the orphans are exactly the modules on disk without an import path from the root through existing files |
| ImportClosure.ClosedHoldsAll | scripts/check_import_closure.py:38-48 | a set that holds the root and is closed under imports holds everything reachable |

## Left out

- The Lean scanner, parser, schema, dumper and limit checks: the kernel is a parameter; the model says which requests reach it and what becomes of its answers, not what it answers.
- Runtime start-up, memory pools, threads, library loading and interpreter shutdown order: foreign calls.
- Objects that Lean exempts from counting (persistent constants, whose count is 0) and counts shared between threads: `NoLeak`'s empty heap is about counted objects.
- FfiErrorText: `ctypes` cuts a returned text at its first null character; the model returns the whole text, and ownership is the same.
- EmptyAnswerConforms: shows that conforming kernels exist, not that the Lean kernel is one.
- RecognisersExist: shows that the conditions on the recognisers can be met, not that Python's `int` and `float` meet them.
- NumberWithLineFeed: `YamlReader` takes no scalar over several lines, so the text is rejected; a reader that folds lines by section 7.3.2 accepts some of these texts and gives another string.
- LiteralReads: apart from `\0`, which Lean's own string grammar does not have, the reader's escapes are those the encoder writes.
- The reader of `YamlReader` rejects comments, blank lines, compact nested collections, multi-line scalars, aliases, tags and hexadecimal escapes: the printer writes none of them.
- Dictionary keys that are not scalars raise an error in the code; the key type excludes them. Aliases in `to_python` are not modelled.
- `_fidelity_config`, `safe_dump` and the dumper behind it, `safe_dump_all`: they call the kernel.
- `as_dict`, `items`, `keys`, `__getitem__`, `__iter__` and the Rust wrappers: the requests and the ownership pattern of `AsList`, `RawItems` and `Contains` again.
- The null check of `YamlValue.__init__`: the handles of every modelled path are proved non-null.
- SuiteRoundTrip.BadBlock: bounds the text read from a bad block, it does not say which cases come out.
- `classify_stage`, `should_skip`, `unescape_test_yaml` and the guard templates: easy members.
- HeadingOutline: the regular expression that finds heading tags and copies the rest of the page.
- BodyExtractor: the HTML parser that makes the events, and the style sheet around the pages.
- ImportClosure: reading import lines, sorting the orphans, and the index of reflections.
- The whitelist file format and the file walk of the rename tool.
