/** Does the wrapper emitted for a C entry compile?  Every local may be called what it
    is called, every name used is bound before, every call argument has the slot type the
    symbol was loaded at, and the length of a returned array is a usize in scope. */
module CWrapperTypes {
  import opened Common
  import opened KernelTypes
  import opened CHeader
  import opened CWrapper

  datatype CTy = TInt(kind: PrimKind) | TText | TCText | TAddr | TBuf | THandles | TArgs | TVecMut | TResult

  type CCtx = map<string, CTy>

  /** The strict and reserved keywords of Rust 2021. */
  predicate IsKeyword(s: string) {
    s in {
      "abstract", "as", "async", "await", "become", "box", "break", "const", "continue", "crate", "do", "dyn", "else",
      "enum", "extern", "false", "final", "fn", "for", "if", "impl", "in", "let", "loop", "macro", "match", "mod",
      "move", "mut", "override", "priv", "pub", "ref", "return", "self", "Self", "static", "struct", "super", "trait",
      "true", "try", "type", "typeof", "unsafe", "unsized", "use", "virtual", "where", "while", "yield"}
  }

  /** A name C gives a parameter. */
  predicate IsCName(s: string) {
    s != "" && !('0' <= s[0] <= '9') && forall c <- s :: IsWordChar(c)
  }

  predicate Reserved(s: string) {
    s == "_" || IsKeyword(s)
  }

  /** A `let` can bind the name and an expression can use it. */
  predicate Bindable(s: string) {
    IsCName(s) && !Reserved(s)
  }

  function BoundByC(s: CStmt): seq<string> {
    match s
    case LetPrim(name, _, _) => [name]
    case LetText(name, _) => [name]
    case LetCString(name, _) => [name]
    case LetHandle(name, _) => [name]
    case LetArray(ptr, len, _, _) => [ptr, len]
    case LetLen(len, _, _) => [len]
    case LetHandles(_) => []
  }

  predicate BindsWell(s: CStmt) {
    forall x <- BoundByC(s) :: Bindable(x)
  }

  function CheckC(s: CStmt, ctx: CCtx): Option<CCtx> {
    if !s.LetCString? && !("args" in ctx && ctx["args"] == TArgs) then None
    else if !BindsWell(s) then None
    else
      match s
      case LetPrim(name, _, kind) => if kind.IsWide() then None else Some(ctx[name := TInt(kind)])
      case LetText(name, _) => Some(ctx[name := TText])
      case LetCString(name, source) => if source in ctx && ctx[source] == TText then Some(ctx[name := TCText]) else None
      case LetHandle(name, _) => Some(ctx[name := TAddr])
      case LetArray(ptr, len, _, _) => Some(ctx[ptr := TBuf][len := TInt(Usize)])
      case LetLen(len, _, _) => Some(ctx[len := TInt(Usize)])
      case LetHandles(_) => Some(ctx["__handles" := THandles])
  }

  function CheckAllC(ss: seq<CStmt>, ctx: CCtx): Option<CCtx> {
    if ss == [] then Some(ctx)
    else
      match CheckAllC(ss[..|ss| - 1], ctx)
      case None => None
      case Some(before) => CheckC(ss[|ss| - 1], before)
  }

  function SlotOfArg(a: CArg, ctx: CCtx): Option<CSlot> {
    match a
    case CLocal(name) =>
      if name !in ctx then None
      else
        (match ctx[name]
         case TInt(kind) => Some(SlotPrim(kind))
         case TAddr => Some(SlotMutPtr)
         case TBuf => Some(SlotConstPtr)
         case _ => None)
    case CStrPtr(name) => if name in ctx && ctx[name] == TCText then Some(SlotCStr) else None
    case ClosurePtr => if "v" in ctx && ctx["v"] == TVecMut then Some(SlotMutPtr) else None
    case HandlesPtr => if "__handles" in ctx && ctx["__handles"] == THandles then Some(SlotPtrArray) else None
    case HandlesLen => if "__handles" in ctx && ctx["__handles"] == THandles then Some(SlotPrim(Usize)) else None
  }

  function SlotsOfArgs(cs: seq<CArg>, ctx: CCtx): Option<seq<CSlot>> {
    if cs == [] then Some([])
    else
      match (SlotsOfArgs(cs[..|cs| - 1], ctx), SlotOfArg(cs[|cs| - 1], ctx))
      case (Some(before), Some(last)) => Some(before + [last])
      case _ => None
  }

  /** The lines behind a plain call: a scalar goes into its variant, and the length of a
      returned array is looked up when the result is already bound to `__raw`. */
  predicate ReturnCompiles(ret: CmRet, ctx: CCtx) {
    match ret
    case ReturnsPrimitive(kind) => !kind.IsWide()
    case AllocatedArray(_, len, _) =>
      var inner := ctx["__raw" := TResult];
      len in inner && inner[len] == TInt(Usize)
    case _ => true
  }

  /** The body type-checks against a symbol with the given slots, in a module whose
      statics, constants and constructors are `taken`: no local may be called like one.
      The closure form discards the C result, so only the plain form looks at it. */
  predicate CCompiles(b: CBody, slots: seq<CSlot>, taken: set<string>) {
    && CheckAllC(b.stmts, map["args" := TArgs]).Some?
    && var ctx := CheckAllC(b.stmts, map["args" := TArgs]).value;
    && var inner := if b.call.WithMut? then ctx["v" := TVecMut] else ctx;
    && SlotsOfArgs(b.call.args, inner) == Some(slots)
    && inner.Keys !! taken
    && (b.call.Direct? ==> ReturnCompiles(b.ret, ctx))
  }

  /** Names of all locals of an entry's wrapper. */
  function LocalNames(ps: seq<Param>, n: nat): set<string>
    requires n <= |ps|
  {
    if n == 0 then {"args"} else LocalNames(ps, n - 1) + NamesOf(ps[n - 1])
  }

  /** Statics, constants and constructors have an upper-case letter in their names, so
      none is called like `args`, `v`, `__raw` or another name the generator chooses. */
  ghost predicate ModuleNames(taken: set<string>) {
    forall t <- taken :: exists c <- t :: 'A' <= c <= 'Z'
  }

  predicate NoneTaken(ps: seq<Param>, taken: set<string>) {
    forall p <- ps :: NamesOf(p) !! taken
  }

  /** Names bound to a usize by one parameter's extraction. */
  function UsizeOf(p: Param): set<string> {
    match p.kind
    case Primitive(kind) => if kind == Usize then {p.name} else {}
    case ArrayPtr(_, len) => {len}
    case MutArrayPtr(_, len) => {len}
    case _ => {}
  }

  function UsizeNames(ps: seq<Param>, n: nat): set<string>
    requires n <= |ps|
  {
    if n == 0 then {} else UsizeNames(ps, n - 1) + UsizeOf(ps[n - 1])
  }

  /** Names as C declarations have them: parameters and `out_len` are identifiers, and an
      array's length is called after the array. */
  predicate CNames(e: ExportedFn) {
    && (forall p <- e.params :: IsCName(p.name))
    && (forall p <- e.params | p.kind.ArrayPtr? || p.kind.MutArrayPtr? :: p.kind.lenParam == p.name + "_len")
    && (e.ret.AllocatedArray? ==> IsCName(e.ret.lenFrom))
  }

  /** A scalar keeps its name, which Rust must accept, and its payload is copied. */
  predicate Extractable(p: Param) {
    p.kind.Primitive? ==> !p.kind.prim.IsWide() && !Reserved(p.name)
  }

  /** The plain form can hand its result on: `out_len` is a `size_t` that `__raw` does not
      hide.  The closure form, taken for a mutable array, discards the result. */
  predicate ResultFits(e: ExportedFn) {
    (exists p <- e.params :: p.kind.MutArrayPtr?) ||
    match e.ret
    case ReturnsPrimitive(kind) => !kind.IsWide()
    case AllocatedArray(_, len, _) => len != "__raw" && len in UsizeNames(e.params, |e.params|)
    case _ => true
  }

  ghost predicate TypedLocals(p: Param, ctx: CCtx) {
    && NamesOf(p) <= ctx.Keys
    && match p.kind
       case Primitive(kind) => ctx[p.name] == TInt(kind)
       case StrRef => ctx[p.name + "_c"] == TCText
       case OpaquePtr => ctx[p.name + "_ptr"] == TAddr
       case ArrayPtr(_, len) => ctx[p.name + "_ptr"] == TBuf && ctx[len] == TInt(Usize)
       case MutArrayPtr(_, len) => ctx[len] == TInt(Usize)
       case SliceCmTypes => ctx["__handles"] == THandles
       case _ => false
  }

  ghost predicate CCtxReady(ps: seq<Param>, n: nat, ctx: CCtx)
    requires n <= |ps|
  {
    && "args" in ctx && ctx["args"] == TArgs
    && (forall k | 0 <= k < n :: TypedLocals(ps[k], ctx))
    && (forall x :: x in ctx && ctx[x] == TInt(Usize) <==> x in UsizeNames(ps, n))
  }

  lemma {:induction false} CheckOneC(s: CStmt, ctx: CCtx)
    ensures CheckAllC([s], ctx) == CheckC(s, ctx)
  {
    assert [s][..0] == [];
  }

  lemma {:induction false} CheckAppendC(a: seq<CStmt>, b: seq<CStmt>, ctx: CCtx)
    ensures CheckAllC(a + b, ctx) ==
            match CheckAllC(a, ctx)
            case None => None
            case Some(mid) => CheckAllC(b, mid)
  {
    if b == [] {
      assert a + b == a;
    } else {
      assert (a + b)[..|a + b| - 1] == a + b[..|b| - 1];
      CheckAppendC(a, b[..|b| - 1], ctx);
    }
  }

  lemma {:induction false} NoUnderscoreInKeywords(w: string)
    ensures IsKeyword(w) ==> '_' !in w
  {
  }

  /** Generated suffixes make any C name bindable. */
  lemma {:induction false} SuffixBindable(name: string, suffix: string)
    requires IsCName(name) && suffix in {"_s", "_c", "_ptr", "_len"}
    ensures Bindable(name + suffix)
  {
    NoUnderscoreInKeywords(name + suffix);
    hide IsKeyword;
    assert (name + suffix)[|name|] == '_' && '_' in name + suffix;
    assert forall c <- suffix :: IsWordChar(c);
  }

  /** The extraction of a parameter binds names Rust accepts, unless it is a scalar that is
      called like a keyword. */
  lemma {:induction false} ExtractionNames(p: Param, idx: nat)
    requires !p.kind.RustOnly() && IsCName(p.name)
    requires p.kind.ArrayPtr? || p.kind.MutArrayPtr? ==> p.kind.lenParam == p.name + "_len"
    ensures (forall s <- ExtractionOf(p, idx).pre :: BindsWell(s)) <==> (p.kind.Primitive? ==> !Reserved(p.name))
  {
    SuffixBindable(p.name, "_s");
    SuffixBindable(p.name, "_c");
    SuffixBindable(p.name, "_ptr");
    SuffixBindable(p.name, "_len");
    hide IsCName, Reserved;
    if p.kind.Primitive? {
      var stmt := LetPrim(p.name, idx, p.kind.prim);
      assert stmt in [stmt] && p.name in [p.name];
      assert BindsWell(stmt) <==> Bindable(p.name);
    }
  }

  /** One extraction types exactly its own names, and the usize ones among them. */
  lemma {:induction false} OneExtractionChecks(p: Param, idx: nat, ctx: CCtx)
    requires !p.kind.RustOnly() && "args" in ctx && ctx["args"] == TArgs && IsCName(p.name)
    requires p.kind.ArrayPtr? || p.kind.MutArrayPtr? ==> p.kind.lenParam == p.name + "_len"
    ensures var r := CheckAllC(ExtractionOf(p, idx).pre, ctx);
            && (r.Some? <==> Extractable(p))
            && (r.Some? ==>
                  && TypedLocals(p, r.value)
                  && (forall x | x !in NamesOf(p) :: x in r.value <==> x in ctx)
                  && (forall x | x in ctx && x !in NamesOf(p) :: r.value[x] == ctx[x])
                  && (forall x <- NamesOf(p) :: r.value[x] == TInt(Usize) <==> x in UsizeOf(p)))
  {
    ExtractionNames(p, idx);
    hide Bindable, Reserved, IsCName, BindsWell, BoundByC;
    var pre := ExtractionOf(p, idx).pre;
    if p.kind.StrRef? {
      assert pre == [pre[0]] + [pre[1]];
      CheckAppendC([pre[0]], [pre[1]], ctx);
      CheckOneC(pre[0], ctx);
      CheckOneC(pre[1], CheckC(pre[0], ctx).value);
      assert (p.name + "_s")[|p.name| + 1] != (p.name + "_c")[|p.name| + 1];
    } else {
      assert pre == [pre[0]];
      CheckOneC(pre[0], ctx);
      assert p.kind.ArrayPtr? ==> (p.name + "_ptr")[|p.name| + 1] != (p.name + "_len")[|p.name| + 1];
    }
  }

  lemma {:induction false} UsizeNamesAreOwn(e: ExportedFn, n: nat)
    requires HygienicC(e) && n < |e.params|
    ensures forall j | n <= j < |e.params| :: UsizeNames(e.params, n) !! NamesOf(e.params[j])
  {
    if n > 0 {
      UsizeNamesAreOwn(e, n - 1);
      forall j | n <= j < |e.params| ensures UsizeOf(e.params[n - 1]) !! NamesOf(e.params[j]) {
        assert NamesOf(e.params[n - 1]) !! NamesOf(e.params[j]);
        assert UsizeOf(e.params[n - 1]) <= NamesOf(e.params[n - 1]);
      }
    }
  }

  lemma {:induction false} NextExtraction(e: ExportedFn, n: nat)
    requires CEntry(e) && HygienicC(e) && 0 < n <= |e.params|
    ensures !e.params[n - 1].kind.RustOnly()
    ensures var exts := Extractions(e, n);
            && |exts| > 0 && exts[..|exts| - 1] == Extractions(e, n - 1)
            && exts[|exts| - 1] == ExtractionOf(e.params[n - 1], ArgIdx(e, n - 1))
  {
    assert e.params[n - 1] in e.params;
  }

  lemma {:induction false} CtxAdvances(e: ExportedFn, n: nat, before: CCtx, after: CCtx)
    requires HygienicC(e) && 0 < n <= |e.params|
    requires CCtxReady(e.params, n - 1, before)
    requires TypedLocals(e.params[n - 1], after)
    requires forall x | x !in NamesOf(e.params[n - 1]) :: x in after <==> x in before
    requires forall x | x in before && x !in NamesOf(e.params[n - 1]) :: after[x] == before[x]
    requires forall x <- NamesOf(e.params[n - 1]) :: after[x] == TInt(Usize) <==> x in UsizeOf(e.params[n - 1])
    ensures CCtxReady(e.params, n, after)
  {
    var ps := e.params;
    assert ps[n - 1] in ps;
    UsizeNamesAreOwn(e, n - 1);
    assert UsizeOf(ps[n - 1]) <= NamesOf(ps[n - 1]);
    forall k | 0 <= k < n - 1 ensures TypedLocals(ps[k], after) {
      assert NamesOf(ps[k]) !! NamesOf(ps[n - 1]);
      assert forall x <- NamesOf(ps[k]) :: x in after && after[x] == before[x];
    }
    forall x ensures x in after && after[x] == TInt(Usize) <==> x in UsizeNames(ps, n) {
      if x in NamesOf(ps[n - 1]) {
        assert x !in UsizeNames(ps, n - 1);
      }
    }
  }

  lemma {:induction false} KeysAdvance(p: Param, before: CCtx, after: CCtx)
    requires TypedLocals(p, after) && forall x | x !in NamesOf(p) :: x in after <==> x in before
    ensures after.Keys == before.Keys + NamesOf(p)
  {
    hide NamesOf;
  }

  lemma {:induction false} LocalsApart(ps: seq<Param>, n: nat, taken: set<string>)
    requires n <= |ps| && ModuleNames(taken)
    ensures LocalNames(ps, n) !! taken <==> forall p <- ps[..n] :: NamesOf(p) !! taken
  {
    hide NamesOf;
    if n == 0 {
      assert forall c <- "args" :: !('A' <= c <= 'Z');
    } else {
      LocalsApart(ps, n - 1, taken);
      assert ps[..n] == ps[..n - 1] + [ps[n - 1]];
    }
  }

  /** The context after the first n parameters. */
  ghost predicate Extracted(e: ExportedFn, n: nat)
    requires CEntry(e) && n <= |e.params|
  {
    var r := CheckAllC(PreLines(Extractions(e, n)), map["args" := TArgs]);
    && (r.Some? <==> forall p <- e.params[..n] :: Extractable(p))
    && (r.Some? ==> CCtxReady(e.params, n, r.value) && r.value.Keys == LocalNames(e.params, n))
  }

  lemma {:induction false} ExtractionStep(e: ExportedFn, n: nat)
    requires CEntry(e) && HygienicC(e) && CNames(e) && 0 < n <= |e.params| && Extracted(e, n - 1)
    ensures Extracted(e, n)
  {
    var p := e.params[n - 1];
    assert p in e.params && IsCName(p.name) && !p.kind.RustOnly();
    assert p.kind.ArrayPtr? || p.kind.MutArrayPtr? ==> p.kind.lenParam == p.name + "_len";
    hide ExtractionOf, TypedLocals, CheckC, CheckAllC, NamesOf, UsizeOf, Extractable, Extractions, ArgIdx, HygienicC,
         CNames;
    var start: CCtx := map["args" := TArgs];
    NextExtraction(e, n);
    assert e.params[..n] == e.params[..n - 1] + [p];
    var pre := ExtractionOf(p, ArgIdx(e, n - 1)).pre;
    CheckAppendC(PreLines(Extractions(e, n - 1)), pre, start);
    var r := CheckAllC(PreLines(Extractions(e, n - 1)), start);
    if r.Some? {
      OneExtractionChecks(p, ArgIdx(e, n - 1), r.value);
      var after := CheckAllC(pre, r.value);
      if after.Some? {
        CtxAdvances(e, n, r.value, after.value);
        KeysAdvance(p, r.value, after.value);
      }
    }
  }

  lemma {:induction false} ExtractionsCheck(e: ExportedFn, n: nat)
    requires CEntry(e) && HygienicC(e) && CNames(e) && n <= |e.params|
    ensures Extracted(e, n)
  {
    hide *;
    if n == 0 {
      NothingExtracted(e);
    } else {
      ExtractionsCheck(e, n - 1);
      ExtractionStep(e, n);
    }
  }

  lemma {:induction false} NothingExtracted(e: ExportedFn)
    requires CEntry(e)
    ensures Extracted(e, 0)
  {
  }

  // ------------------------------------------------------- the argument list

  lemma {:induction false} CSlotsAppend(ps: seq<Param>, p: Param)
    requires !p.kind.RustOnly() && forall q <- ps :: !q.kind.RustOnly()
    ensures forall q <- ps + [p] :: !q.kind.RustOnly()
    ensures CSlots(ps + [p]) == CSlots(ps) + SlotsOf(p.kind)
  {
    hide SlotsOf;
    if ps == [] {
      assert ps + [p] == [p] && [p][1..] == [];
      assert CSlots([p]) == SlotsOf(p.kind) + CSlots([]);
    } else {
      assert (ps + [p])[1..] == ps[1..] + [p] && (ps + [p])[0] == ps[0];
      CSlotsAppend(ps[1..], p);
      assert SlotsOf(ps[0].kind) + (CSlots(ps[1..]) + SlotsOf(p.kind)) ==
        (SlotsOf(ps[0].kind) + CSlots(ps[1..])) + SlotsOf(p.kind);
    }
  }

  lemma {:induction false} SlotsAppend(a: seq<CArg>, b: seq<CArg>, ctx: CCtx)
    requires SlotsOfArgs(a, ctx).Some? && SlotsOfArgs(b, ctx).Some?
    ensures SlotsOfArgs(a + b, ctx) == Some(SlotsOfArgs(a, ctx).value + SlotsOfArgs(b, ctx).value)
  {
    if b == [] {
      assert a + b == a;
      assert SlotsOfArgs(a, ctx).value + [] == SlotsOfArgs(a, ctx).value;
    } else {
      assert (a + b)[..|a + b| - 1] == a + b[..|b| - 1];
      assert (a + b)[|a + b| - 1] == b[|b| - 1];
      SlotsAppend(a, b[..|b| - 1], ctx);
      var sa, sb, s := SlotsOfArgs(a, ctx).value, SlotsOfArgs(b[..|b| - 1], ctx).value,
        SlotOfArg(b[|b| - 1], ctx).value;
      assert sa + (sb + [s]) == (sa + sb) + [s];
    }
  }

  lemma {:induction false} SlotsOfOneOrTwo(a: CArg, b: CArg, ctx: CCtx)
    requires SlotOfArg(a, ctx).Some? && SlotOfArg(b, ctx).Some?
    ensures SlotsOfArgs([a], ctx) == Some([SlotOfArg(a, ctx).value])
    ensures SlotsOfArgs([a, b], ctx) == Some([SlotOfArg(a, ctx).value, SlotOfArg(b, ctx).value])
  {
    assert [a][..0] == [];
    assert [] + [SlotOfArg(a, ctx).value] == [SlotOfArg(a, ctx).value];
    assert [a, b][..1] == [a];
    assert [SlotOfArg(a, ctx).value] + [SlotOfArg(b, ctx).value] == [SlotOfArg(a, ctx).value, SlotOfArg(b, ctx).value];
  }

  /** What one parameter adds to the call, in either form. */
  function Contribution(ext: Extraction, len: Option<string>): seq<CArg> {
    if len.Some? && ext.mutInfo.Some? then [ClosurePtr, CLocal(len.value)] else ext.callArgs
  }

  lemma {:induction false} ContributionFits(p: Param, idx: nat, len: Option<string>, ctx: CCtx)
    requires !p.kind.RustOnly() && TypedLocals(p, ctx)
    requires p.kind.MutArrayPtr? ==> len.Some? && len.value in ctx && ctx[len.value] == TInt(Usize) &&
                                     "v" in ctx && ctx["v"] == TVecMut
    ensures SlotsOfArgs(Contribution(ExtractionOf(p, idx), len), ctx) == Some(SlotsOf(p.kind))
  {
    var cs := Contribution(ExtractionOf(p, idx), len);
    if |cs| == 1 {
      assert cs == [cs[0]];
      SlotsOfOneOrTwo(cs[0], cs[0], ctx);
    } else {
      assert cs == [cs[0], cs[1]];
      SlotsOfOneOrTwo(cs[0], cs[1], ctx);
    }
  }

  function ArgsInForm(exts: seq<Extraction>, len: Option<string>): seq<CArg> {
    if len.Some? then ClosureArgs(exts, len.value) else FlatArgs(exts)
  }

  lemma {:induction false} FormStep(e: ExportedFn, n: nat, len: Option<string>)
    requires CEntry(e) && HygienicC(e) && 0 < n <= |e.params|
    ensures !e.params[n - 1].kind.RustOnly()
    ensures ArgsInForm(Extractions(e, n), len) ==
            ArgsInForm(Extractions(e, n - 1), len) + Contribution(ExtractionOf(e.params[n - 1], ArgIdx(e, n - 1)), len)
  {
    NextExtraction(e, n);
  }

  lemma {:induction false} CSlotsStep(e: ExportedFn, n: nat)
    requires CEntry(e) && 0 < n <= |e.params|
    ensures forall p <- e.params[..n] :: !p.kind.RustOnly()
    ensures forall p <- e.params[..n - 1] :: !p.kind.RustOnly()
    ensures !e.params[n - 1].kind.RustOnly()
    ensures CSlots(e.params[..n]) == CSlots(e.params[..n - 1]) + SlotsOf(e.params[n - 1].kind)
  {
    assert forall p <- e.params[..n] :: p in e.params;
    assert e.params[n - 1] in e.params;
    assert e.params[..n] == e.params[..n - 1] + [e.params[n - 1]];
    CSlotsAppend(e.params[..n - 1], e.params[n - 1]);
  }

  lemma {:induction false} NoArgsYet(e: ExportedFn, len: Option<string>, ctx: CCtx)
    requires CEntry(e)
    ensures SlotsOfArgs(ArgsInForm(Extractions(e, 0), len), ctx) == Some(CSlots([]))
    ensures e.params[..0] == []
  {
  }

  lemma {:induction false} ArgsFit(e: ExportedFn, n: nat, len: Option<string>, ctx: CCtx)
    requires CEntry(e) && HygienicC(e) && n <= |e.params|
    requires forall k | 0 <= k < n :: TypedLocals(e.params[k], ctx)
    requires len.Some? ==> len.value in ctx && ctx[len.value] == TInt(Usize) && "v" in ctx && ctx["v"] == TVecMut
    requires len.None? ==> forall k | 0 <= k < n :: !e.params[k].kind.MutArrayPtr?
    ensures forall p <- e.params[..n] :: !p.kind.RustOnly()
    ensures SlotsOfArgs(ArgsInForm(Extractions(e, n), len), ctx) == Some(CSlots(e.params[..n]))
  {
    hide *;
    if n == 0 {
      NoArgsYet(e, len, ctx);
    } else {
      ArgsFit(e, n - 1, len, ctx);
      FormStep(e, n, len);
      CSlotsStep(e, n);
      var p, idx := e.params[n - 1], ArgIdx(e, n - 1);
      ContributionFits(p, idx, len, ctx);
      SlotsAppend(ArgsInForm(Extractions(e, n - 1), len), Contribution(ExtractionOf(p, idx), len), ctx);
    }
  }

  lemma {:induction false} LastMutStep(e: ExportedFn, n: nat)
    requires CEntry(e) && HygienicC(e) && 0 < n <= |e.params|
    ensures var kind := e.params[n - 1].kind;
            if kind.MutArrayPtr?
            then LastMut(Extractions(e, n)) == Some(MutInfo(ArgIdx(e, n - 1), RustElem(kind.elem), kind.lenParam))
            else LastMut(Extractions(e, n)) == LastMut(Extractions(e, n - 1))
  {
    hide Extractions, HygienicC;
    NextExtraction(e, n);
  }

  lemma {:induction false} MutInfoNamesAParam(e: ExportedFn, n: nat)
    requires CEntry(e) && HygienicC(e) && n <= |e.params|
    ensures match LastMut(Extractions(e, n))
            case None => forall k | 0 <= k < n :: !e.params[k].kind.MutArrayPtr?
            case Some(m) => m.lenParam in UsizeNames(e.params, n)
  {
    hide *;
    if n == 0 {
      NoMutYet(e);
    } else {
      MutInfoNamesAParam(e, n - 1);
      LastMutStep(e, n);
      UsizeNamesStep(e.params, n);
    }
  }

  lemma {:induction false} NoMutYet(e: ExportedFn)
    requires CEntry(e)
    ensures LastMut(Extractions(e, 0)).None?
  {
  }

  lemma {:induction false} UsizeNamesStep(ps: seq<Param>, n: nat)
    requires 0 < n <= |ps|
    ensures forall x <- UsizeNames(ps, n - 1) :: x in UsizeNames(ps, n)
    ensures ps[n - 1].kind.MutArrayPtr? ==> ps[n - 1].kind.lenParam in UsizeNames(ps, n)
  {
  }

  /** Once the extractions check, only the result and the names of the module can object. */
  lemma {:induction false} CallChecks(e: ExportedFn, ctx: CCtx, taken: set<string>)
    requires CEntry(e) && HygienicC(e) && ModuleNames(taken) && CCtxReady(e.params, |e.params|, ctx)
    requires CheckAllC(CWrapperBody(e).stmts, map["args" := TArgs]) == Some(ctx)
    ensures CCompiles(CWrapperBody(e), CSlots(e.params), taken) <==> ResultFits(e) && ctx.Keys !! taken
  {
    hide Extractions, CheckAllC, SlotsOfArgs, CSlots, UsizeNames, PreLines, FlatArgs, ClosureArgs, ModuleNames,
         HygienicC, TypedLocals;
    CallArgsFit(e, ctx);
    MutInfoNamesAParam(e, |e.params|);
    VIsNotTaken(taken);
    if CWrapperBody(e).call.WithMut? {
      MutParamExists(e, |e.params|);
      hide CCtxReady;
    } else {
      assert forall p <- e.params :: !p.kind.MutArrayPtr?;
    }
  }

  lemma {:induction false} CallArgsFit(e: ExportedFn, ctx: CCtx)
    requires CEntry(e) && HygienicC(e) && CCtxReady(e.params, |e.params|, ctx)
    ensures var call := CWrapperBody(e).call;
            SlotsOfArgs(call.args, if call.WithMut? then ctx["v" := TVecMut] else ctx) == Some(CSlots(e.params))
  {
    var n := |e.params|;
    MutInfoNamesAParam(e, n);
    assert e.params[..n] == e.params;
    hide Extractions, SlotsOfArgs, CSlots, UsizeNames, PreLines, FlatArgs, ClosureArgs, HygienicC, TypedLocals;
    match LastMut(Extractions(e, n))
    case None =>
      ArgsFit(e, n, None, ctx);
    case Some(m) =>
      ClosureKeepsLocals(e, ctx);
      VIsNotAUsize(e, n);
      ArgsFit(e, n, Some(m.lenParam), ctx["v" := TVecMut]);
  }

  lemma {:induction false} ClosureKeepsLocals(e: ExportedFn, ctx: CCtx)
    requires HygienicC(e) && forall k | 0 <= k < |e.params| :: TypedLocals(e.params[k], ctx)
    ensures forall k | 0 <= k < |e.params| :: TypedLocals(e.params[k], ctx["v" := TVecMut])
  {
    hide TypedLocals, NamesOf;
    forall k | 0 <= k < |e.params| ensures TypedLocals(e.params[k], ctx["v" := TVecMut]) {
      assert e.params[k] in e.params;
      VDoesNotMatter(e.params[k], ctx);
    }
  }

  /** The wrapper of a hygienic C entry compiles against the type the symbol is loaded at
      if and only if every scalar is copyable and not called like a keyword, the plain form
      can hand its result on, and no local is called like something of the module. */
  lemma {:induction false} CWrapperCompilesExactly(e: ExportedFn, taken: set<string>)
    requires CEntry(e) && HygienicC(e) && CNames(e) && ModuleNames(taken)
    ensures CCompiles(CWrapperBody(e), CSlots(e.params), taken) <==>
            && (forall p <- e.params :: Extractable(p))
            && ResultFits(e)
            && NoneTaken(e.params, taken)
  {
    var n := |e.params|;
    ExtractionsCheck(e, n);
    assert e.params[..n] == e.params;
    LocalsApart(e.params, n, taken);
    var r := CheckAllC(CWrapperBody(e).stmts, map["args" := TArgs]);
    if r.Some? {
      CallChecks(e, r.value, taken);
    }
    hide ResultFits, Extractable, HygienicC, CNames, ModuleNames, CCtxReady, CSlots, PreLines, CheckAllC, LocalNames;
  }

  lemma {:induction false} VIsNotTaken(taken: set<string>)
    requires ModuleNames(taken)
    ensures "v" !in taken
  {
    assert forall c <- "v" :: !('A' <= c <= 'Z');
  }

  lemma {:induction false} VDoesNotMatter(p: Param, ctx: CCtx)
    requires TypedLocals(p, ctx) && "v" !in NamesOf(p)
    ensures TypedLocals(p, ctx["v" := TVecMut])
  {
  }

  lemma {:induction false} VIsNotAUsize(e: ExportedFn, n: nat)
    requires HygienicC(e) && n <= |e.params|
    ensures "v" !in UsizeNames(e.params, n)
  {
    if n > 0 {
      VIsNotAUsize(e, n - 1);
      assert e.params[n - 1] in e.params;
      assert UsizeOf(e.params[n - 1]) <= NamesOf(e.params[n - 1]);
    }
  }

  lemma {:induction false} MutParamExists(e: ExportedFn, n: nat)
    requires CEntry(e) && HygienicC(e) && n <= |e.params| && LastMut(Extractions(e, n)).Some?
    ensures exists p <- e.params :: p.kind.MutArrayPtr?
  {
    hide Extractions, HygienicC;
    if n == 0 {
      NoMutYet(e);
    } else {
      LastMutStep(e, n);
      if e.params[n - 1].kind.MutArrayPtr? {
        assert e.params[n - 1] in e.params;
      } else {
        MutParamExists(e, n - 1);
      }
    }
  }
}
