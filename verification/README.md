# Verified models of τομί

Four parts of the τομί task runtime and its tooling, modelled in Dafny and proved to do
what the rest of the system relies on. `dafny verify dfyconfig.toml` checks everything.

**The kernel-wrapper compiler.** `tomii-converter` reads Rust and C signatures and emits,
for each exported kernel, several artefacts that have to agree: the type a symbol is
loaded at, a checked wrapper, an unchecked twin, in-process copies of both, static lookup
tables and an export table for dynamic loading. Emitted code is a small syntax tree here
(`WrapperCode`, `CWrapper`), with a type checker and an interpreter whose outcomes are a
completed call, a panic, undefined behaviour, or being stuck (code that would not have
compiled). `args`, temporaries and the closure's `v` are ordinary variables, and a callee
is looked up among them first, so shadowing is real; name hygiene is a stated precondition
where it is the caller's business and part of an exact condition where it decides. `RustRenderers` and `RustWrappers`
cover Rust entries, `Signatures` the classification of Rust signatures against what the
procedural macro generates, `Registry` the tables, `TwinSelection` the runtime's choice of
unchecked twins. On the C side `CHeaderFile` and `CTypeText` read header text, `CHeader`
classifies declarations, `CWrapper` and `CWrapperTypes` give the wrapper its meaning, and
`CDeclaration` composes them.

**The graph loader and its printer.** `IndexText` prints dependency indexes as
`tomii/_serialize.py` does and parses them as `graph_gen.rs` does. `GraphLoader` numbers
nodes, builds the graph tables and validates; acyclicity is a theorem about every graph it
accepts. `ArgLayout` takes the layout check to its purpose: it fills argument buffers the
way the runtime does, including in-place splices and buffers that are reused between tasks.

**The knob space.** `Grid` covers domains, the full grid and `split`; `KnobSpace` and
`KnobLens` cover extraction of graph knobs and editing a graph, which form a lens.

**Concurrent and accounting cores.** `Recorder` is a step machine of senders, the
shutdown flag and the collector thread, and the collector's loops are proved to be runs of
it. `SlotMask` is the atomic completion mask. `Accounting` is the busy/idle breakdown of
`scripts/analyze_sched.py` and its validator.

## Where the code does not do what one might expect

Some natural properties are false of the code. The code is modelled as it is; each entry
names the exact condition under which the property does hold.

- A parameter or return of type `i128` or `u128` yields a wrapper that does not compile,
  because the payload sits behind an `Arc`; and the in-process wrapper of a companion that
  has a parameter of its own name, such as `fn scale(scale: usize)`, would call that
  parameter (`RustWrappers.CompilesExactly`, `Signatures.WideDoesNotCompile`,
  `Signatures.SameNameIsHidden`).
- A `#[no_mangle]` function that takes or returns a type outside the converter's list, or has
  a parameter without a plain name, is loaded at another type than its own
  (`Signatures.LoadedTypeIsOwn`, `Signatures.FourMisreadings`).
- The converter reads the last segment of a type path, the macro only single-segment paths:
  `std::string::String` is advertised as "String" but returned as Any, which also defeats twin
  selection (`Signatures.HintMatchesCompanion`, `Signatures.SymTypeIsTheCompanions`,
  `TwinSelection.HonestExactly`, `TwinSelection.WrongHintHappens`).
- The bulk companion numbers its argument slots without the index parameter, the `_cm`
  companion with it; both read the same slots exactly when the index comes last
  (`Signatures.BulkSlotsAgreeExactly`, `Signatures.IndexFirstShifts`).
- The static `get_func` panics on an unknown name where the dynamic one answers None; the two
  agree exactly on the keys of Rust entries (`Registry.WrapsAgreeExactly`). Registry keys that
  sanitize to the same identifier share one argspec binding (`Registry.ArgspecsComeBack`,
  `Registry.CollidingKeys`).
- Twin selection looks at the predecessor's return variant and not at the index list, so
  a required slot that reads nothing, as with the accepted range "3-1", breaks the twin
  (`TwinSelection.EmptyReadBreaksTheTwin`, `TwinSelection.EmptyReadHappens`).
- Two mutable arrays share the closure's vector and length (`CWrapper.ClosureFormIsFlat`,
  `CDeclaration.SecondArrayPassedTwice`).
- A C scalar parameter called like a Rust keyword, and an `out_len` called `__raw`, yield
  wrappers that do not compile (`CWrapperTypes.CWrapperCompilesExactly`,
  `CDeclaration.KeywordParameterFails`, `CDeclaration.ResultHidesItsLength`).
- C value types outside the converter's table are loaded as i32, which is right for a 32-bit
  int in any spelling and wrong for all others, and arrays are believed to be pointers;
  together with lengths that are missing, or taken where none is due, this is exactly when the
  loaded parameters are not the declared ones (`CHeader.SymTypeIsTheDeclaration`,
  `CHeader.UnknownTypeIsMisread`), and for the result likewise
  (`CHeader.ReturnIsTheDeclaration`, `CHeader.ResultIsMisread`).
- Statics are named after upper-cased symbols: a shared or exported `free` function, or names
  that differ only in case, declare one twice (`CDeclaration.StaticsDifferExactly`).
- A lone negative offset, an empty list, and ranges with a negative bound do not survive
  print and parse (`IndexText.ListComesBack`, `IndexText.LiteralRangeComesBack`).
- The comment at `tomii-core/src/graph_gen.rs:485-486` says grouped edges use a resolution
  path of their own. `fetch_res_results` (`tomii-core/src/runtime/arg_resolution.rs:402-474`)
  delivers as many values for them as for any other edge, so the exemption lets overruns
  through (`ArgLayout.LayoutCheckIsExact`, `ArgLayout.GroupedEdgeOverruns`).
- Patching a used buffer is right exactly for `template_stable` nodes
  (`ArgLayout.ReuseIsSafeExactly`). The per-cell loop of bulk tasks
  (`tomii-core/src/runtime/task_execution.rs:418-444`) patches one buffer repeatedly
  without that test, and every cell lengthens the list unless the test would have passed
  (`ArgLayout.ReuseGrows`, `ArgLayout.SecondCellSeesMore`).
- Knob edits go to the first node or initialization of a name while extraction lists all of
  them (nodes) or the last (initializations); what is written comes back exactly when every
  knob sits on the first of its name (`KnobLens.AddressableExactly`).
- Recorders publish into one place for the whole process. A recorder's CSV holds its own
  receptions exactly when the last operation on the place before it is taken was that
  recorder's publication; otherwise it holds the last publisher's, or nothing
  (`Recorder.ExportsOwnExactly`, `Recorder.ShareThePlace`, `Recorder.TwoRecorders`).
- `validate_worker_records` answers for everything the validator has seen; it is right about
  the worker it was given exactly when nothing was reported before, or that worker has no
  records or bad ones (`Accounting.SchedulerValidator.ValidateWorkerRecords`).

## Model

| member | source | states |
|---|---|---|
| KernelTypes.VariantSelectsKind | tomii-core/src/runtime/init.rs:523-557 | the variant name of a value equals the name of a scalar kind exactly for the scalars of that kind, so a scalar pattern and the tag the runtime reports agree |
| KernelTypes.StringVariantSelectsText | tomii-core/src/runtime/init.rs:523-557 | only text values are tagged "String" |
| KernelTypes.VariantNameIsInjective | tomii-converter/src/lib.rs:176-200 | different scalar kinds never share a variant name |
| WrapperCode.CompiledWrappersAreSound | tomii-converter/src/lib.rs:1088-1251 | soundness of the model's type checker: a wrapper that compiles never reads an unbound or ill-typed name, never calls a local instead of its callee, and calls its symbol with one value of the declared type per parameter, in every environment and on every argument list |
| WrapperCode.StmtsAreSound | tomii-converter/src/lib.rs:1110-1169 | the statements of a well-typed wrapper leave every local with the type the checker gave it |
| RustRenderers.RenderEntryWrapper | tomii-converter/src/lib.rs:1088-1198 | the checked renderer's loop (extraction up to the first variadic parameter, then the variadic local) emits the body whose meaning the lemmas below give |
| RustRenderers.RenderEntryWrapperUnchecked | tomii-converter/src/lib.rs:987-1058 | the unchecked renderer's loop over the first `fixed_params` parameters emits the twin's body, counting assertion included |
| RustRenderers.RenderSelfContainedWrapper | tomii-converter/src/lib.rs:1338-1425 | the in-process renderer emits the same body with the companion itself as callee |
| RustRenderers.RenderSelfContainedWrapperUnchecked | tomii-converter/src/lib.rs:1429-1503 | likewise for the in-process twin |
| RustRenderers.FixedCount | tomii-converter/src/lib.rs:991-995 | the number of slots in front of the first variadic parameter: none of them is variadic and the next parameter, if any, is |
| RustWrappers.ArgspecIsTheShape | tomii-converter/src/lib.rs:953-973 | for an entry whose variadic parameter is last, the published argspec accepts exactly the argument lists that have every fixed slot, each holding what its parameter unpacks |
| RustWrappers.CheckedWrapperIsExact | tomii-converter/src/lib.rs:1088-1198 | the checked wrapper panics on exactly the argument lists its argspec refuses, and on all others calls its symbol with each parameter's own value, if no local is called like the symbol |
| RustWrappers.UncheckedTwinAgrees | tomii-converter/src/lib.rs:987-1084 | the unchecked twin does what the checked wrapper does on every list the argspec accepts, never completes a call on any other, and with debug assertions is indistinguishable from the checked wrapper on every list |
| RustWrappers.InProcessWrappersAgree | tomii-converter/src/lib.rs:1286-1503 | in-process wrappers (both kinds) end every run exactly as the symbol-loading ones do when the static holds the companion, except that a companion with a parameter of its own name is never called |
| RustWrappers.CompilesExactly | tomii-converter/src/lib.rs:715-750 | the emitted wrapper binds every name before use and passes one expression of the declared type per parameter if and only if no parameter and no return is 128 bits wide, nothing behind a variadic parameter needs a local, and no local is called like the callee or like a static of the module |
| RustWrappers.VisibleExactly | tomii-converter/src/lib.rs:1338-1425 | the names a wrapper binds before its call: `args`, the unpacked parameters with their `_s` temporaries, and the collected tail |
| RustWrappers.HintIsTheReturnedVariant | tomii-converter/src/lib.rs:913-921 | a return hint of an explicit companion is the variant of every value a completed call of any of the four wrappers returns |
| RustWrappers.CallArgsDeliver | tomii-converter/src/lib.rs:1228-1251 | with the locals in place the argument expressions deliver every parameter's value in order, and fail exactly when a slot is missing or ill shaped |
| RustWrappers.StmtsRun | tomii-converter/src/lib.rs:1110-1169 | the extraction statements never get stuck, fail only in the way their access mode fails, and otherwise leave every local ready |
| Signatures.CollectEntries | tomii-converter/src/lib.rs:526-593 | one pass over the items, with the three name sets taken beforehand, collects exactly the exported ones, in order, with the bulk flag the name sets call for |
| Signatures.AllCollectedAreRust | tomii-converter/src/lib.rs:526-593 | every collected entry, bulk flag set, is one the renderers accept |
| Signatures.CollectedEntriesAreRust | tomii-converter/src/lib.rs:617-710 | every collected entry is one the renderers accept, and an annotated function's variadic parameter is always last |
| Signatures.SameNameIsHidden | tomii-converter/src/lib.rs:1286-1308 | `fn scale(scale: usize) -> usize`: hygienic, compiles when linked, but its in-process wrapper would call a usize |
| Signatures.WideDoesNotCompile | tomii-converter/src/lib.rs:1130-1135 | `fn widen(x: i128) -> usize`: neither wrapper, whatever its callee, compiles |
| Signatures.BulkDetectionIsExact | tomii-converter/src/lib.rs:526-593 | when the no_mangle names are any subset of the macro's companions, an entry is marked bulk exactly when its key was exported with `bulk`, even when both f and f_bulk are exported |
| Signatures.InferredParamMatchesCompanion | tomii-converter/src/lib.rs:395-425 | a parameter's inferred kind is loaded at the companion's own type if and only if the type is neither a scalar behind a longer path nor a `&mut str` |
| Signatures.SymTypeIsTheCompanions | tomii-macro/src/lib.rs:409-611 | for an annotated function the symbol type has the companion's arity and return, and its parameter types exactly when no parameter is read differently |
| Signatures.HintMatchesCompanion | tomii-converter/src/lib.rs:928-948 | the advertised return hint is the variant the companion wraps into if and only if the return type is not a scalar behind a longer path |
| Signatures.QualifiedStringHintIsWrong | tomii-macro/src/lib.rs:162-200 | the concrete disagreement: `std::string::String` is advertised as "String" and wrapped as Any |
| Signatures.LoadedTypeIsOwn | tomii-converter/src/lib.rs:331-387 | a `#[no_mangle]` function is loaded at its own type if and only if every parameter has a plain name and it takes and returns only the listed references, scalars and owned Strings |
| Signatures.FourMisreadings | tomii-converter/src/lib.rs:331-387 | an owned CmTypes, `&[f32]`, a dropped `_: usize` and a returned `Vec<f32>` are outside that list |
| Signatures.ExportHintIsTheReturnedVariant | tomii-converter/src/lib.rs:928-948 | where the hint is right, every completed call of any wrapper of an annotated function returns that variant |
| Signatures.AssignBulkSlots | tomii-macro/src/lib.rs:256-280 | the bulk companion numbers its argument slots after leaving out the parameters named idx, index or i |
| Signatures.BulkSlotsAgreeExactly | tomii-macro/src/lib.rs:256-280 | the bulk companion reads every parameter from the slot the `_cm` companion reads it from if and only if no parameter comes behind the index |
| Signatures.IndexFirstShifts | tomii-macro/src/lib.rs:256-280 | the annotated `fn f(i: usize, x: f32)` with `bulk`: the wrapper reads x from slot 1, the bulk companion from slot 0 |
| Registry.RenderRegistry | tomii-converter/src/lib.rs:1999-2090 | the static match tables, column by column, hold one arm per entry that has a value for the column; the wrapper table panics on any other name, the others answer None |
| Registry.RenderSelfContained | tomii-converter/src/lib.rs:1538-1648 | the export table lists the Rust entries in order and no C entry, each argspec through the binding of its sanitized key |
| Registry.LoadTable | tomii-core/src/dynamic_registry.rs:86-158 | loading answers with the last descriptor of each name and rejects a table with a wrong version or an unreadable descriptor |
| Registry.ColumnAnswers | tomii-converter/src/lib.rs:1999-2090 | with distinct keys a static table answers an entry's key with that entry's own cell, and its `_` arm (None, or a panic for wrappers) answers for entries without one and for every other key |
| Registry.RowReadsBack | tomii-core/src/dynamic_registry.rs:105-150 | exporting a row and reading it back loses nothing but, possibly, its argspec |
| Registry.ArgspecsComeBack | tomii-converter/src/lib.rs:1270-1280 | every entry's argspec (the empty one included) survives the export exactly when keys that sanitize to the same identifier carry equal argspecs |
| Registry.AsciiKeysSurvive | tomii-converter/src/lib.rs:1270-1280 | ASCII identifiers sanitize to themselves, so distinct ASCII keys always meet that condition |
| Registry.CollidingKeys | tomii-converter/src/lib.rs:1270-1280 | two kernels with different one-letter keys outside ASCII: the one without parameters is published with the argspec of the other |
| Registry.DynamicAnswersAsStatic | tomii-core/src/dynamic_registry.rs:169-193 | for entries with distinct keys the loaded table answers wrapper lookups as the static table does for exactly the keys of Rust entries, twin, bulk and return-variant lookups for every key, and argspec lookups for every key exactly under that condition |
| Registry.WrapsAgreeExactly | tomii-converter/src/lib.rs:1999-2015 | wrapper lookups agree if and only if the key is a Rust entry's; for a name no entry has the static lookup panics and the dynamic one answers None |
| Registry.PublishAndLoad | tomii-core/src/dynamic_registry.rs:86-158 | end to end, for ASCII keys: a table published by the converter is accepted by a loader of the same version, knows exactly the Rust keys, and answers all five lookups like the static tables (wrappers for its own keys, the rest for every key) |
| TwinSelection.SelectUncheckedWrappers | tomii-core/src/runtime/init.rs:620-672 | the selection pass chooses exactly the nodes whose template is stable and whose every required slot is proven |
| TwinSelection.StoredResultsKeepHints | tomii-core/src/runtime/init.rs:566-605 | over every run of tasks, each stored result of a node carries the return variant its kernel advertises |
| TwinSelection.HonestExactly | tomii-core/src/runtime/init.rs:566-605 | for a kernel collected from source, its hint holds of everything its companion can answer if and only if it is an explicit companion or its return type is not a scalar or String behind a path |
| TwinSelection.SelectedTwinsAreSafe | tomii-core/src/runtime/init.rs:566-672 | over every run, with the argument lists the patched buffers really hold, a selected twin whose required slots read something makes the very call the checked wrapper would have made, without undefined behaviour |
| TwinSelection.SlotsDeliver | tomii-core/src/runtime/arg_resolution.rs:65-98 | however many tasks used the buffer before, a stable node's list has one value per slot, each delivered by that slot's own source; an empty index list leaves None |
| TwinSelection.EmptyReadBreaksTheTwin | tomii-core/src/runtime/arg_resolution.rs:418-420 | the condition is needed: a selected node with a required slot whose index list is empty never completes its call |
| TwinSelection.EmptyReadHappens | tomii-core/src/runtime/arg_resolution.rs:418-420 | such a node exists: a graph with the accepted text "3-1" selects the twin for a node whose required slot reads nothing, and the call is undefined behaviour in a release build |
| TwinSelection.WrongHintHappens | tomii-core/src/runtime/init.rs:566-672 | `fn make() -> std::string::String` feeding `fn take(s: String)`: the stored Any is taken for a String, the twin is selected and its call is undefined behaviour in a release build |
| TwinSelection.BackwardRangeIsEmpty | tomii-core/src/graph_gen.rs:95-147 | the loader accepts "3-1" and reads an empty index list |
| CTypeText.NormaliseCType | tomii-converter/src/c_header.rs:94-114 | the three passes (collapse, star pass with pop, trim) compute the one-pass normal form |
| CTypeText.NormalisingSettles | tomii-converter/src/c_header.rs:94-114 | normalising is idempotent, and leaves alone exactly the texts in normal form |
| CTypeText.NormalIsNormal | tomii-converter/src/c_header.rs:94-114 | the result has no blank at its ends, only single spaces, and none in front of a star |
| CTypeText.BlanksDoNotMatter | tomii-converter/src/c_header.rs:94-114 | two spellings normalise alike if and only if they are linked by changes of run lengths of blanks, of blanks before a star and of blanks at the ends |
| CTypeText.ParamComesBack | tomii-converter/src/c_header.rs:125-147 | a parameter spelled as type text and name is split into exactly that name and the normalised type |
| CTypeText.DeclarationComesBack | tomii-converter/src/c_header.rs:154-187 | print/parse round trip of a whole declaration: name, return type and parameters come back, types in normal form |
| CHeaderFile.ParseAnnotation | tomii-converter/src/c_header.rs:53-78 | the attribute list is folded item by item, unknown items ignored |
| CHeaderFile.AnnotationComesBack | tomii-converter/src/c_header.rs:53-78 | print/parse round trip of an attribute list: each spelled attribute has its own effect, in order |
| CHeaderFile.GatherDeclaration | tomii-converter/src/c_header.rs:335-349 | gathers the declaration text behind an annotation up to the first line with a semicolon, skipping blank and comment lines |
| CHeaderFile.CollectCEntries | tomii-converter/src/c_header.rs:309-364 | the line loop yields the entries of all annotated declarations, in order |
| CHeaderFile.LayoutDoesNotMatter | tomii-converter/src/c_header.rs:309-364 | however annotated declarations are spread over lines, with comments and blank lines in between, the entries are exactly theirs, in order |
| CHeaderFile.LineYieldsItsEntry | tomii-converter/src/c_header.rs:368-430 | an annotated one-line declaration yields the entry of its own names and normalised types |
| CHeader.BuildEntry | tomii-converter/src/c_header.rs:368-430 | the scan keeps and absorbs parameters as specified step by step, and produces an entry the C renderer accepts |
| CHeader.BuildCSymType | tomii-converter/src/lib.rs:757-813 | the `extern "C"` type lists the slots of the kept parameters, lengths re-inserted |
| CHeader.ClassifiedSlots | tomii-converter/src/c_header.rs:196-253 | a kept parameter's first slot is that of its C type, read without the annotation, exactly when an annotated parameter is a pointer and any other one is a pointer, of a type of the table, or a 32-bit int; a length follows exactly when the kind brings one |
| CHeader.SymTypeIsTheDeclaration | tomii-converter/src/c_header.rs:368-430 | the emitted type has one slot per declared parameter, of that parameter's own C type and in its own place, if and only if every array and pointer list is followed by a size taken for its length, no other parameter is taken for one, every other value type is one of the table or a 32-bit int in another spelling, and only pointers are annotated; where only pointers are annotated, equal slot lists decide |
| CHeader.UnknownTypeIsMisread | tomii-converter/src/c_header.rs:246-251 | `uint8_t x` is emitted as an i32 |
| CHeader.QualifiedTypes | tomii-converter/src/c_header.rs:227-252 | a `const` type of one word, qualified in front or behind, is read right if and only if it is a 32-bit int |
| CHeader.ReturnIsTheDeclaration | tomii-converter/src/c_header.rs:261-301 | the result's slot is that of the declared return type if and only if that is plain `void` or a type the converter knows |
| CHeader.ResultIsMisread | tomii-converter/src/c_header.rs:261-301 | `uint8_t f()` and `long f()` are loaded as returning an i32 |
| CHeader.SlotsAgreeByAccident | tomii-converter/src/c_header.rs:368-430 | with a size_t annotated as an array the slot lists can agree although one parameter's address is passed for another |
| CHeader.KeptAndAbsorbedDiffer | tomii-converter/src/c_header.rs:368-430 | with distinct names no kept parameter is also absorbed, and kept names are distinct |
| CWrapper.RenderCEntryWrapper | tomii-converter/src/lib.rs:1700-1993 | the C renderer's loops emit the body the lemmas below give a meaning to |
| CWrapper.KthParamReadsKthArgument | tomii-converter/src/lib.rs:1733-1890 | the k-th kept parameter is unpacked from the k-th consumed argument |
| CWrapper.ClosureFormIsFlat | tomii-converter/src/lib.rs:1891-1916 | the closure form passes the flat argument list if and only if there is at most one mutable array |
| CWrapper.CWrapperIsExact | tomii-converter/src/lib.rs:1733-1993 | the C wrapper panics unless every argument has its parameter's shape, and otherwise passes, parameter by parameter and in order, what the k-th argument holds |
| CWrapperTypes.CWrapperCompilesExactly | tomii-converter/src/lib.rs:1733-1993 | the wrapper of a hygienic entry with C names binds every name before use and fits the loaded type, if and only if no scalar is called like a Rust keyword or is 128 bits wide, the plain form's `out_len` names a size parameter or an array's length that the result's own `__raw` does not hide, and no local is called like a static, constant or constructor of the module |
| CDeclaration.DeclarationIsHygienic | tomii-converter/src/c_header.rs:368-430 | a declaration with distinct, non-clashing C names and no scalar called like a Rust keyword yields an entry the C wrapper theorems apply to |
| CDeclaration.DeclaredCallIsMade | tomii-converter/src/c_header.rs:368-430 | from declaration to call: for a well declared function with its pointer list last, at most one mutable array and a result that fits, the wrapper compiles and every call it makes passes one value per declared parameter, each of that parameter's own C type |
| CDeclaration.KeywordParameterFails | tomii-converter/src/lib.rs:1771-1776 | `void set(int type)` yields a wrapper that does not compile |
| CDeclaration.ResultHidesItsLength | tomii-converter/src/lib.rs:1953-1963 | `size_t* iota(size_t __raw)` with `out_len=__raw` yields a wrapper that does not compile, although `__raw` is a size parameter |
| CDeclaration.SecondArrayPassedTwice | tomii-converter/src/lib.rs:1891-1916 | two mutable arrays `a` and `b`: the call passes b's vector and b's length for both |
| CDeclaration.StaticsDifferExactly | tomii-converter/src/lib.rs:1700-1731 | the generated module declares no static twice if and only if the symbols of all entries of both languages (bulk companions and `free` functions included) differ in more than case |
| CDeclaration.SharedFreeFunctionClashes | tomii-converter/src/lib.rs:1700-1731 | a `free` function that another entry names too, or that is exported itself, makes the module declare one static twice |
| CDeclaration.ClashesHappen | tomii-converter/src/lib.rs:1700-1731 | an exported `free_m` that `make_m` names, and `free_m` beside `FREE_M` |
| IndexText.ParseIndexes | tomii-core/src/graph_gen.rs:75-174 | the three branches (list, range, single) push exactly the indexes the specification gives, with the first error winning |
| IndexText.ShowRoundTrip | tomii/_serialize.py:45-52 | every in-range integer survives printing and parsing |
| IndexText.ListComesBack | tomii/_serialize.py:45-52 | a list of offsets comes back if and only if it has two or more, or one that is not negative |
| IndexText.RangeComesBack | tomii-core/src/graph_gen.rs:95-174 | single indexes and ranges with literal or variable bounds come back: literal ends inclusive, variable ends exclusive at the variable's value |
| IndexText.LiteralRangeComesBack | tomii-core/src/graph_gen.rs:95-147 | a literal range comes back if and only if neither bound is negative |
| IndexText.LiteralEndSelectsOneMore | tomii-core/src/graph_gen.rs:121-147 | the same bound written as a literal selects one instance more than as a variable |
| IndexText.LoneNegative | tomii-core/src/graph_gen.rs:95-108 | a lone negative offset is read as a range with an empty start and refused |
| GraphLoader.FromJson | tomii-core/src/graph_gen.rs:324-390 | the loader returns a graph whose tables are consistent and whose nodes are those of the specification, or the first error |
| GraphLoader.AddNodes | tomii-core/src/graph_gen.rs:362-371 | nodes are numbered in order, registered under their names and added, up to the first error |
| GraphLoader.Graph.AddNode | tomii-core/src/graph.rs:30-73 | adding a node keeps initial nodes, condition nodes and successor lists equal to what the node list says |
| GraphLoader.Graph.LinkSuccessors | tomii-core/src/graph.rs:48-57 | each predecessor's list gets the new id exactly once, the table growing as needed |
| GraphLoader.LoadedGraphsAreOrdered | tomii-core/src/graph_gen.rs:324-390 | in every accepted graph ids are 0..n-1 in insertion order and every dependency (argument, loop or condition) has a smaller id |
| GraphLoader.ChainsAreShort | tomii-core/src/graph_gen.rs:324-390 | every dependency chain has at most as many edges as its first node's id, so fewer than there are nodes: no cycles |
| GraphLoader.SuccessorsAreTheConverse | tomii-core/src/graph.rs:36-57 | the successor table is exactly the converse of the argument dependencies, and points forward |
| GraphLoader.SuccessorsAscend | tomii-core/src/graph.rs:48-57 | successor lists are strictly ascending: insertion order, no repetition |
| GraphLoader.InitialNodesStart | tomii-core/src/graph.rs:59-67 | the initial nodes are exactly those without argument dependencies (other than the network), and the first node is one |
| GraphLoader.ResultReadsItsPredecessor | tomii-core/src/graph_gen.rs:16-59 | a parsed result or ordering argument refers to exactly the predecessor it names |
| GraphLoader.ValidateResArgLayout | tomii-core/src/graph_gen.rs:488-525 | the early-return loop reports the first argument that is wide and not last |
| GraphLoader.LayoutCheck | tomii-core/src/graph_gen.rs:488-525 | the check accepts exactly when no argument but the last is wide and ungrouped |
| ArgLayout.BuildArgCache | tomii-core/src/runtime/node_cache.rs:264-331 | each slot-occupying argument is recorded under its own position in the table of its kind; conditional arguments take no slot |
| ArgLayout.ProcessRuntimeRefs | tomii-core/src/runtime/arg_resolution.rs:27-53 | the fused loop for equal counts and the two separate loops write the same entries |
| ArgLayout.PopulateDynamicArgs | tomii-core/src/runtime/arg_resolution.rs:65-98 | the per-task patches turn any sufficiently long buffer into the specified one |
| ArgLayout.PopulateCachedArgs | tomii-core/src/runtime/arg_resolution.rs:108-159 | a buffer built from the template holds exactly what the specification gives, with or without dynamic slots |
| ArgLayout.IntactExactly | tomii-core/src/runtime/arg_resolution.rs:138-158 | every argument of every task finds its own values at its position if and only if the ranges [position, position + width) are pairwise disjoint |
| ArgLayout.LayoutCheckIsExact | tomii-core/src/graph_gen.rs:466-525 | the buffer is intact if and only if the loader's check accepts and no grouped edge is wide without being last |
| ArgLayout.UngroupedCheckIsExact | tomii-core/src/graph_gen.rs:488-525 | for nodes without grouped edges the check accepts exactly when the ranges are disjoint |
| ArgLayout.GroupedEdgeOverruns | tomii-core/src/runtime/arg_resolution.rs:402-474 | a grouped edge the check lets through that overruns the next argument |
| ArgLayout.ReuseIsSafeExactly | tomii-core/src/runtime/init.rs:211-229 | patching the buffer another task left behind gives what a fresh buffer would hold if and only if the runtime's template_stable test passes |
| ArgLayout.ReuseGrows | tomii-core/src/runtime/task_execution.rs:418-444 | patching one buffer for task after task lengthens the list by the same number of slots each time, and that number is zero if and only if the template_stable test passes |
| ArgLayout.SecondCellSeesMore | tomii-core/src/runtime/task_execution.rs:418-444 | two of a predecessor's three instances: the list has two entries for the first cell and three for the second |
| ArgLayout.ReusedBuffersAreFresh | tomii-core/src/runtime/task_execution.rs:515-545 | over any number of tasks on one thread a stable node's kernel sees exactly the list a fresh buffer would give |
| ArgLayout.ReusedCells | tomii-core/src/runtime/task_execution.rs:515-545 | so every slot of that list holds its own argument's value for the task at hand |
| Grid.EnumerateDomain | tomii/_knobs.py:259-278 | the loops materialise exactly the specified points, unknown kinds being refused |
| Grid.Pow2DomainExactly | tomii/_knobs.py:268-276 | a power-of-two domain holds exactly max(lo, 1) * 2^k up to hi, ascending, and 0 in front when lo is 0 |
| Grid.OnlyChoicesRepeat | tomii/_knobs.py:259-278 | a domain repeats a point only if it is a choice that lists it twice |
| Grid.LadderExactly | tomii/_knobs.py:78-85 | the factor ladder holds exactly the integers among base/4, base/2, base, 2 base, 4 base that are at least 1, ascending |
| Grid.Divisors | tomii/_knobs.py:88-89 | trial division, as a loop |
| Grid.DivisorsExactly | tomii/_knobs.py:88-89 | the listed numbers are exactly the positive divisors, ascending |
| Grid.GridCells | tomii/_knobs.py:303-308 | the generator yields one cell per combination, in product order |
| Grid.GridSize | tomii/_knobs.py:311-316 | the running product is the number of combinations the grid yields |
| Grid.CombosMembers | tomii/_knobs.py:303-308 | exactly the combinations with one point per domain are listed |
| Grid.GridIsABijection | tomii/_knobs.py:303-316 | with distinct names and repetition-free domains: as many cells as the product says, pairwise different, and exactly the choices of one point per knob |
| Grid.RepeatedNamesCollapse | tomii/_knobs.py:303-308 | with a repeated knob name the grid contains equal cells |
| Grid.Split | tomii/_knobs.py:319-338 | routes a configuration by the last knob of each name; the first unknown name is refused |
| Grid.SplitAcceptsKnown | tomii/_knobs.py:319-338 | a configuration is accepted exactly when every name in it is known |
| Grid.SplitRoutesOnce | tomii/_knobs.py:319-338 | the two parts together are the configuration, each value exactly once, each graph value as one edit of its own knob's path |
| KnobSpace.EditsCommute | tomii/_knobs.py:341-384 | edits to different paths commute on every graph, and an impossible one is impossible in either order |
| KnobSpace.TargetsDiffer | tomii/_knobs.py:341-384 | different paths never lead to the same place |
| KnobSpace.SitesStay | tomii/_knobs.py:120-204 | writing an integer where one was leaves everything extraction decides on unchanged |
| KnobSpace.IntOfStr | tomii/_knobs.py:92-103 | int(str(n)) is n, for every integer |
| KnobLens.ExtractKnobs | tomii/_knobs.py:120-204 | the extraction loops list exactly the specified knobs, in order, with name, path, domain and base |
| KnobLens.GraphDict.Apply | tomii/_knobs.py:355-382 | one edit changes exactly the addressed number in place, or reports why it cannot and changes nothing |
| KnobLens.ApplyGraphEdits | tomii/_knobs.py:341-384 | edits a deep copy; the given graph is untouched, whatever happens |
| KnobLens.PutThenGet | tomii/_knobs.py:341-384 | after any edits of addressable knobs the same knobs sit at the same places, each holding the value last written to it or its old one |
| KnobLens.AddressableExactly | tomii/_knobs.py:341-384 | every write to every knob comes back if and only if every node with a knob is the first of its name and every literal that serves as a factor is the first initialization of its name |
| KnobLens.AddressableMeans | tomii/_knobs.py:341-384 | that condition on the names is equivalent to every knob's path leading back to where the knob was read |
| KnobLens.UniqueNamesLeadBack | tomii/_knobs.py:341-384 | named nodes and unique names are enough for that |
| KnobLens.SecondOfANameIsLost | tomii/_knobs.py:341-384 | with two nodes of one name the second one's factor cannot be edited |
| KnobLens.KnobNameIsInjective | tomii/_knobs.py:142-195 | knob names identify what they edit, whatever nodes and initializations are called |
| KnobLens.KnobLensLaw | tomii/_knobs.py:319-384 | under that condition splitting a configuration, applying its edits and extracting again yields the same names and paths, each base being the value given under that name |
| Recorder.NothingIsLost | tomii-core/src/async_recorder.rs:86-135 | in every interleaving the records sent on a channel are those received from it followed by those still queued, in order |
| Recorder.PublicationIsFaithful | tomii-core/src/async_recorder.rs:86-118 | the published map groups by slot exactly a prefix of what each worker sent, and that prefix contains everything sent before the flag was set |
| Recorder.PublishedMapIsExact | tomii-core/src/async_recorder.rs:86-135 | slot by slot: the published list is the slot's receptions in order, and each worker's share of it is that slot's records among a prefix of what it sent, reaching past everything sent before the flag |
| Recorder.ExactlyOnceUnderItsSlot | tomii-core/src/async_recorder.rs:121-135 | a received record is in its own slot's list as often as it was received, and in no other |
| Recorder.WorkerOrderIsKept | tomii-core/src/async_recorder.rs:121-135 | within a slot's list one worker's records keep the order they were sent in |
| Recorder.GroupedBySlot | tomii-core/src/async_recorder.rs:121-135 | each slot's list is that slot's receptions in order, and no list is empty |
| Recorder.ShutdownPublishes | tomii-core/src/async_recorder.rs:86-118 | once the flag is set and the senders are quiet the collector publishes within a bounded number of its own steps |
| Recorder.AsyncRecorder.CollectAllRecords | tomii-core/src/async_recorder.rs:121-135 | one pass, with sends and the flag interleaved before every try, is a run of the step machine that ends behind the last channel and counts its receptions |
| Recorder.AsyncRecorder.CollectorLoop | tomii-core/src/async_recorder.rs:86-118 | the collector thread, whatever happens outside, is a run of the step machine that ends with its grouped receptions in the process-wide place |
| Recorder.AsyncRecorder.WriteToCsv | tomii-core/src/async_recorder.rs:137-187 | takes whatever map lies in the process-wide place and writes exactly its records, each once; without one it writes nothing |
| Recorder.ShareThePlace | tomii-core/src/async_recorder.rs:109-118 | any number of recorders publish and export in any order: every export writes the receptions of the recorder whose publication was the last operation on the place, or nothing if that was an export or there was none; each recorder's share is a run of its own step machine |
| Recorder.ExportsOwnExactly | tomii-core/src/async_recorder.rs:137-153 | a recorder exports exactly its own receptions if the last operation on the place was its own publication, and, where its receptions differ from the others' and are not empty, only then |
| Recorder.TwoRecorders | tomii-core/src/async_recorder.rs:109-118 | the failing instance: both publish before either exports, so the first recorder writes the second one's records and the second writes none |
| SlotMask.MaskRefinesSet | tomii-core/src/dependency_counter.rs:119-131 | setting and clearing a bit of the 64-bit mask add and remove one slot of the set it stands for, and a claim wins exactly when the slot was not in it |
| SlotMask.CompletionMask.TryComplete | tomii-core/src/dependency_counter.rs:125-131 | the fetch_or claim adds its slot and returns true exactly when it was the call that added it |
| SlotMask.CompletionMask.Unmark | tomii-core/src/dependency_counter.rs:119-122 | clearing removes its slot and no other |
| SlotMask.CompletionMask.CompletedList | tomii-core/src/dependency_counter.rs:175-184 | the debug listing is the set in ascending order |
| SlotMask.BitCountsTheWinner | tomii-core/src/dependency_counter.rs:125-131 | between two clearings of a slot at most one claim wins, exactly one if the slot was free and any claim ran, and the bit equals that count |
| SlotMask.ClearedIsFree | tomii-core/src/dependency_counter.rs:119-122 | right after a clearing the slot is free |
| SlotMask.TwoWinnersNeedAClearing | tomii-core/src/dependency_counter.rs:119-131 | two winning claims of a slot have a clearing of that slot between them, in every run of any threads |
| SlotMask.FirstClaimWins | tomii-core/src/dependency_counter.rs:125-131 | a claim of a free slot wins exactly when it is the first |
| SlotMask.WinsBalance | tomii-core/src/dependency_counter.rs:119-131 | over any run, wins and initial state balance with effective clearings and final state |
| SlotMask.SlotsAreIndependent | tomii-core/src/dependency_counter.rs:119-131 | a slot's bit depends on the steps on that slot alone |
| SlotMask.OutcomesAreIndependent | tomii-core/src/dependency_counter.rs:119-131 | so does the outcome of every claim |
| SlotMask.SplitClaimHasTwoWinners | tomii-core/src/dependency_counter.rs:37-42 | a claim split into a read and a later write could be won by two threads |
| Accounting.SchedulerValidator.ValidateWorkerRecords | scripts/analyze_sched.py:91-128 | appends exactly the worker's errors and warnings; its verdict is right about this worker if and only if nothing was reported before, there are no records, or they are bad |
| Accounting.ShowTwoWorkers | scripts/analyze_sched.py:91-135 | a worker in good order is reported invalid once a worker before it was |
| Accounting.SchedulerValidator.ValidateAll | scripts/analyze_sched.py:130-135 | with a fresh validator the verdict is "no error anywhere" |
| Accounting.Sort | scripts/analyze_sched.py:95-95 | sorting keeps every record |
| Accounting.SortSorts | scripts/analyze_sched.py:95-95 | and orders them by the key |
| Accounting.NoErrorsExactly | scripts/analyze_sched.py:91-128 | the validator reports nothing if and only if every range is non-empty and no two records, in whatever order given, overlap |
| Accounting.MeasureGaps | scripts/analyze_sched.py:206-215 | the positive gaps, split at the threshold |
| Accounting.CalculateIdleTime | scripts/analyze_sched.py:164-233 | every component of the breakdown is what it is called |
| Accounting.TimeIsConserved | scripts/analyze_sched.py:192-217 | busy plus idle is the global span plus the overlap between consecutive sorted records, and is the span exactly when there is none |
| Accounting.ValidRecordsAddUp | scripts/analyze_sched.py:91-217 | for records the validator accepts busy plus idle is the span, and inside the global range no component is negative |
| Accounting.OrderDoesNotMatter | scripts/analyze_sched.py:192-217 | the whole breakdown is the same for every order the records are read in |

## Left out

- Rust and C source text inside the emitted strings, imports and `cache_sym!`: emitted code is a syntax tree, and a callee name stands for the symbol it was loaded from.
- `syn` parsing, `libloading`, raw pointers and leaked memory; the macro's companion is taken as the signature and return variant it declares.
- Bulk wrappers: they pass their arguments through unchanged; their detection, their place in the tables and the slots their companion reads are modelled, the companion's loop over instances is not.
- CWrapper.CWrapperIsExact: the element types behind `with_any` are compared by name, two tasks locking the same vector are not modelled, and what the C function writes or returns is not.
- CDeclaration.StaticsDifferExactly: upper-casing is that of ASCII letters; `to_uppercase` also maps others, and two symbols that meet only there are not modelled.
- CHeader.SymTypeIsTheDeclaration: a slot is a scalar kind or an address; const and mutable pointers are one to a caller; C type names are those of the fixed-width and standard integer types, qualifiers are read at either end, and any other name is a type of its own even where a typedef or the platform would make it a known one.
- CDeclaration.DeclaredCallIsMade: takes the parsed declaration; `CHeaderFile.LineYieldsItsEntry` supplies it from text.
- CWrapperTypes.CWrapperCompilesExactly: names are ASCII identifiers, as the declarations and the annotation grammar have them; other text in `out_len` or in a parameter's place is not modelled.
- Signatures.LoadedTypeIsOwn: paths are told apart by their last segment, generic arguments of scalars and String and an `extern` calling convention are not modelled.
- TwinSelection.SelectedTwinsAreSafe: a result slot that reads nothing and a spin-wait that gives up without marking the task stale (`single_slot_mode`) both leave None in the slot; the theorem asks for slots that read something. What is fetched is any result the predecessor stored, whichever instance; values of type Any that are upgraded to AnyHeld for bulk tasks are not modelled.
- Registry.LoadTable: descriptors hold text as sequences of characters; invalid UTF-8 is one unreadable-descriptor case.
- IndexText.ParseIndexes: `trim` removes spaces, tabs and line ends only, not every Unicode blank; the addition past a literal end wraps as a release build does.
- GraphLoader.FromJson: workers, loops, priorities, object construction and the other network settings are inputs that succeed or fail; ids are unbounded where the source uses 16 bits; tables compiled from the graph afterwards are not modelled.
- GraphLoader.InitialNodesStart: a dependency is one through the node's own arguments, as in the source; loop and condition arguments do not make a node non-initial.
- ArgLayout.PopulateDynamicArgs: entries are symbolic (which argument, which value of it, which task), the predecessor instance a value is fetched from is not computed, and staleness, which drops the task, is left out.
- Loader and runtime both exempt `$network` nodes from templates; `ArgLayout` speaks of a node's arguments only.
- KnobSpace.IntOfStr: `int` also accepts blanks and underscores, which `str` never prints; initialization values are text, and booleans posing as integers are not modelled.
- Grid.LadderExactly: exact arithmetic; beyond 2^53 the source's float products round.
- Command-line knobs, random sampling, Optuna and prompt rendering in `tomii/_knobs.py`: single expressions over the modelled domains.
- RustWrappers.CompilesExactly: the statics a local must not be called like are those of the given scope, the wrappers' symbols and their like; what else the module imports is not modelled.
- Recorder.AsyncRecorder.WriteToCsv: the 100 ms sleep is not modelled; the caller's call happens before or after publication, and both cases are stated. File errors and the CSV text of one record are left out.
- SlotMask.CompletionMask.TryComplete: a slot is a six-bit number, which the builder's limit of 64 slots guarantees; memory orderings weaker than sequential consistency are not modelled.
- Accounting.CalculateIdleTime: the largest and smallest gap and the average duration are read off the modelled lists; percentages, statistics and printing are left out.
- `NodeDepMap`, the resolution loop, schedulers and slot lifecycle: not part of this model.
