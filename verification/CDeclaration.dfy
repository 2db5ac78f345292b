/** From a C declaration to the call it ends in: the header reader and the wrapper
    renderer put together. */
module CDeclaration {
  import opened Common
  import opened KernelTypes
  import opened WrapperCode
  import opened RustRenderers
  import opened CHeader
  import opened CWrapper
  import opened CWrapperTypes

  const PLAIN := Annotation(false, None, None, [], [])

  /** The entry built for a declaration. */
  function EntryOf(retType: string, fnName: string, raws: seq<RawParam>, ann: Annotation): ExportedFn {
    ExportedFn(fnName, fnName, KeptParams(raws, ann, START), ClassifyCReturn(retType, ann), None,
               C, AutoParams(raws, ann, START), false)
  }

  /** Names are C names, generated ones (temporaries, lengths, `args`, `v`) do not clash, and
      no scalar is called like a keyword of Rust. */
  predicate HygienicDeclaration(raws: seq<RawParam>, ann: Annotation) {
    var ps := KeptParams(raws, ann, START);
    && DistinctNames(raws)
    && (forall i, j | 0 <= i < j < |ps| :: NamesOf(ps[i]) !! NamesOf(ps[j]))
    && (forall p <- ps :: "args" !in NamesOf(p) && "v" !in NamesOf(p))
    && (forall raw <- raws :: IsCName(raw.name)) && (ann.outLen.Some? ==> IsCName(ann.outLen.value))
    && (forall p <- ps :: p.kind.Primitive? ==> !Reserved(p.name))
  }

  lemma {:induction false} KeptKinds(raws: seq<RawParam>, ann: Annotation, st: ScanState)
    ensures forall p <- KeptParams(raws, ann, st) ::
              && !p.kind.RustOnly()
              && (exists raw <- raws :: raw.name == p.name)
              && (p.kind.Primitive? ==> !p.kind.prim.IsWide())
              && (p.kind.ArrayPtr? || p.kind.MutArrayPtr? ==> p.kind.lenParam == p.name + "_len")
  {
    if raws != [] {
      KeptKinds(raws[1..], ann, Advance(raws[0], ann, st));
    }
  }

  lemma {:induction false} DeclarationIsHygienic(retType: string, fnName: string, raws: seq<RawParam>, ann: Annotation)
    requires HygienicDeclaration(raws, ann)
    ensures var e := EntryOf(retType, fnName, raws, ann);
            CEntry(e) && HygienicC(e) && CNames(e) && forall p <- e.params :: Extractable(p)
  {
    var e := EntryOf(retType, fnName, raws, ann);
    KeptKinds(raws, ann, START);
    KeptAndAbsorbedDiffer(raws, ann, START);
    forall p | p in e.params && p.kind.ArrayPtr? ensures p.name + "_ptr" != p.kind.lenParam {
      assert (p.name + "_ptr")[|p.name| + 1] == 'p' && (p.name + "_len")[|p.name| + 1] == 'l';
    }
  }

  /** A passed value is of a slot's C type. */
  predicate FitsSlot(v: CVal, slot: CSlot) {
    match slot
    case SlotPrim(kind) => v.VInt? && v.kind == kind
    case SlotCStr => v.VCText?
    case SlotMutPtr => v.VAddr? || v.VBuf?
    case SlotConstPtr => v.VBuf?
    case SlotPtrArray => v.VAddrs?
  }

  ghost predicate AllFit(vs: seq<CVal>, slots: seq<CSlot>) {
    |vs| == |slots| && forall i | 0 <= i < |vs| :: FitsSlot(vs[i], slots[i])
  }

  lemma {:induction false} ExpectedFits(e: ExportedFn, n: nat, args: seq<CmValue>)
    requires CEntry(e) && n <= |e.params| && CSlotsHold(e.params, n, args)
    ensures forall p <- e.params[..n] :: !p.kind.RustOnly()
    ensures AllFit(Expected(e.params, n, args), CSlots(e.params[..n]))
  {
    if n > 0 {
      ExpectedFits(e, n - 1, args);
      CSlotsStep(e, n);
      ParamFits(e.params[n - 1].kind, n - 1, args);
      FitAppend(Expected(e.params, n - 1, args), CSlots(e.params[..n - 1]),
                CParamValues(e.params[n - 1].kind, n - 1, args), SlotsOf(e.params[n - 1].kind));
    }
  }

  lemma {:induction false} ParamFits(kind: ParamKind, k: nat, args: seq<CmValue>)
    requires !kind.RustOnly() && CSlotHolds(kind, k, args)
    ensures AllFit(CParamValues(kind, k, args), SlotsOf(kind))
  {
  }

  lemma {:induction false} FitAppend(va: seq<CVal>, sa: seq<CSlot>, vb: seq<CVal>, sb: seq<CSlot>)
    requires AllFit(va, sa) && AllFit(vb, sb)
    ensures AllFit(va + vb, sa + sb)
  {
  }

  /** A pointer list and its length are the last two parameters. */
  predicate ListAtEnd(raws: seq<RawParam>, ann: Annotation) {
    forall i | 0 <= i < |raws| && raws[i].cType == "void**" && !IsArray(raws[i], ann) :: i + 2 >= |raws|
  }

  predicate OneMutable(raws: seq<RawParam>, ann: Annotation) {
    forall i, j | 0 <= i < j < |raws| :: !(raws[i].name in ann.mutArrayParams && raws[j].name in ann.mutArrayParams)
  }

  lemma {:induction false} KeptListIsLast(raws: seq<RawParam>, ann: Annotation, st: ScanState, owed: bool)
    requires Balanced(raws, ann, st, owed) && ListAtEnd(raws, ann)
    ensures SliceLast(KeptParams(raws, ann, st))
  {
    if raws != [] {
      var next := Advance(raws[0], ann, st);
      assert forall i | 0 <= i < |raws[1..]| :: raws[1..][i] == raws[i + 1];
      if Classified(raws[0], ann, st).Some? && Classified(raws[0], ann, st).value.SliceCmTypes? {
        ClassifiedSlots(raws[0], ann, st);
        assert raws[0].cType == "void**" && !IsArray(raws[0], ann) && |raws| <= 2;
        assert Classified(raws[1], ann, next).None? && raws[1..][1..] == [];
        assert KeptParams(raws[1..], ann, next) == [];
      } else {
        KeptListIsLast(raws[1..], ann, next,
          Classified(raws[0], ann, st).Some? && BringsLength(Classified(raws[0], ann, st).value));
      }
      hide ClassifyCParam, Advance, IsArray;
    }
  }

  lemma {:induction false} NoMutableKept(raws: seq<RawParam>, ann: Annotation, st: ScanState)
    requires forall r <- raws :: r.name !in ann.mutArrayParams
    ensures forall p <- KeptParams(raws, ann, st) :: !p.kind.MutArrayPtr?
  {
    if raws != [] {
      assert raws[0] in raws && forall r <- raws[1..] :: r in raws;
      NoMutableKept(raws[1..], ann, Advance(raws[0], ann, st));
      hide Advance;
    }
  }

  lemma {:induction false} KeptMutableIsOne(raws: seq<RawParam>, ann: Annotation, st: ScanState)
    requires OneMutable(raws, ann)
    ensures OneMutArray(KeptParams(raws, ann, st))
  {
    if raws != [] {
      var next := Advance(raws[0], ann, st);
      assert forall i | 0 <= i < |raws[1..]| :: raws[1..][i] == raws[i + 1];
      KeptMutableIsOne(raws[1..], ann, next);
      var rest := KeptParams(raws[1..], ann, next);
      if raws[0].name in ann.mutArrayParams {
        NoMutableKept(raws[1..], ann, next);
      }
      assert forall j | 0 <= j < |rest| :: rest[j] in rest;
      hide Advance;
    }
  }

  /** For a well declared, hygienic function whose pointer list (if any) is the final pair,
      which has at most one mutable array and a result that fits, the wrapper compiles, and
      every call it makes passes one value per declared parameter, each of that parameter's
      own C type. */
  lemma {:induction false} DeclaredCallIsMade(retType: string, fnName: string, raws: seq<RawParam>,
          ann: Annotation, taken: set<string>, args: seq<CmValue>)
    requires WellDeclared(raws, ann) && HygienicDeclaration(raws, ann) && |raws| <= USIZE_MAX
    requires ListAtEnd(raws, ann) && OneMutable(raws, ann)
    requires ResultFits(EntryOf(retType, fnName, raws, ann))
    requires ModuleNames(taken) && NoneTaken(KeptParams(raws, ann, START), taken)
    ensures var e := EntryOf(retType, fnName, raws, ann);
            CEntry(e) && CCompiles(CWrapperBody(e), CSlots(e.params), taken)
    ensures var ps := KeptParams(raws, ann, START);
            var call := PassedValues(CWrapperBody(EntryOf(retType, fnName, raws, ann)), args);
            if CSlotsHold(ps, |ps|, args)
            then && call.Done? && call.value == Expected(ps, |ps|, args)
                 && AllFit(call.value, CSlots(ps)) && AbiOf(CSlots(ps)) == DeclaredSlots(raws)
            else call == Panic
  {
    var e := EntryOf(retType, fnName, raws, ann);
    DeclarationIsHygienic(retType, fnName, raws, ann);
    WellMeansBalanced(raws, ann);
    KeptListIsLast(raws, ann, START, false);
    KeptMutableIsOne(raws, ann, START);
    KeptIsShorter(raws, ann, START);
    CWrapperCompilesExactly(e, taken);
    CWrapperIsExact(e, args);
    if CSlotsHold(e.params, |e.params|, args) {
      ExpectedFits(e, |e.params|, args);
      assert e.params[..|e.params|] == e.params;
      SymTypeIsTheDeclaration(raws, ann);
    }
  }

  lemma {:induction false} KeptIsShorter(raws: seq<RawParam>, ann: Annotation, st: ScanState)
    ensures |KeptParams(raws, ann, st)| <= |raws|
  {
    if raws != [] {
      KeptIsShorter(raws[1..], ann, Advance(raws[0], ann, st));
    }
  }

  lemma {:induction false} OneKept(name: string, cType: string, prim: PrimKind, ann: Annotation)
    requires IsCName(name) && ClassifyCParam(RawParam(name, cType), ann, false) == Some(Primitive(prim))
    ensures KeptParams([RawParam(name, cType)], ann, START) == [Param(name, Primitive(prim))]
    ensures AutoParams([RawParam(name, cType)], ann, START) == []
  {
    var raws := [RawParam(name, cType)];
    assert raws[1..] == [];
    assert Classified(raws[0], ann, START) == Some(Primitive(prim));
    hide ClassifyCParam;
  }

  lemma {:induction false} OneScalarIsHygienic(e: ExportedFn, p: Param)
    requires e.params == [p] && p.kind.Primitive? && e.autoParams == []
    requires IsCName(p.name) && p.name !in {"args", "v"} && (e.ret.AllocatedArray? ==> IsCName(e.ret.lenFrom))
    ensures HygienicC(e) && CNames(e) && p in e.params
  {
    hide IsCName;
  }

  /** `void set(int type)`: a C name that Rust refuses. */
  lemma {:induction false} KeywordParameterFails(taken: set<string>)
    requires ModuleNames(taken)
    ensures var e := EntryOf("void", "set", [RawParam("type", "int")], PLAIN);
            CEntry(e) && HygienicC(e) && CNames(e) && !CCompiles(CWrapperBody(e), CSlots(e.params), taken)
  {
    var e, p := EntryOf("void", "set", [RawParam("type", "int")], PLAIN), Param("type", Primitive(I32));
    assert IsCName("type") && IsKeyword("type") && !Extractable(p) && !e.ret.AllocatedArray?;
    OneKept("type", "int", I32, PLAIN);
    assert CEntry(e) && e.params == [p] && e.autoParams == [];
    hide *;
    OneScalarIsHygienic(e, p);
    CWrapperCompilesExactly(e, taken);
  }

  /** `size_t* iota(size_t __raw)` with `out_len=__raw`: the result takes the name of its
      own length. */
  lemma {:induction false} ResultHidesItsLength(taken: set<string>)
    requires ModuleNames(taken)
    ensures var e := EntryOf("size_t*", "iota", [RawParam("__raw", "size_t")], PLAIN.(outLen := Some("__raw")));
            && CEntry(e) && HygienicC(e) && CNames(e) && e.ret.AllocatedArray?
            && e.ret.lenFrom in UsizeNames(e.params, |e.params|)
            && !CCompiles(CWrapperBody(e), CSlots(e.params), taken)
  {
    var ann, p := PLAIN.(outLen := Some("__raw")), Param("__raw", Primitive(Usize));
    var e := EntryOf("size_t*", "iota", [RawParam("__raw", "size_t")], ann);
    assert ClassifyCReturn("size_t*", ann) == AllocatedArray(ElementType("size_t*"), "__raw", None);
    assert IsCName("__raw");
    OneKept("__raw", "size_t", Usize, ann);
    assert CEntry(e) && e.params == [p] && e.autoParams == [] && !ResultFits(e) && e.ret.lenFrom == "__raw";
    assert UsizeNames([p], 1) == UsizeNames([p], 0) + UsizeOf(p) && "__raw" in UsizeOf(p);
    hide *;
    OneScalarIsHygienic(e, p);
    CWrapperCompilesExactly(e, taken);
  }

  /** `void mix(float* a, size_t a_len, float* b, size_t b_len)`, both `mut_array` */
  const MIX := [RawParam("a", "float*"), RawParam("a_len", "size_t"), RawParam("b", "float*"),
                RawParam("b_len", "size_t")]
  const BOTH_MUTABLE := PLAIN.(mutArrayParams := ["a", "b"])

  lemma {:induction false} MixKept()
    ensures KeptParams(MIX, BOTH_MUTABLE, START) == [Param("a", MutArrayPtr(ElementType("float*"), "a_len")),
                                                     Param("b", MutArrayPtr(ElementType("float*"), "b_len"))]
    ensures AutoParams(MIX, BOTH_MUTABLE, START) == ["a_len", "b_len"]
  {
    hide ElementType;
    var ann, elem := BOTH_MUTABLE, ElementType("float*");
    var a, b := Param("a", MutArrayPtr(elem, "a_len")), Param("b", MutArrayPtr(elem, "b_len"));
    assert "a" + "_len" == "a_len" && "b" + "_len" == "b_len";
    var afterA, afterB := ScanState(Some(a), false), ScanState(Some(b), false);
    assert Classified(MIX[0], ann, START) == Some(a.kind) && Advance(MIX[0], ann, START) == afterA;
    assert Classified(MIX[1], ann, afterA) == None && Advance(MIX[1], ann, afterA) == afterA;
    assert Classified(MIX[2], ann, afterA) == Some(b.kind) && Advance(MIX[2], ann, afterA) == afterB;
    assert Classified(MIX[3], ann, afterB) == None;
    hide Classified, Advance;
    var tail, rest := MIX[1..], [MIX[2], MIX[3]];
    assert tail[1..] == rest && rest[1..] == [MIX[3]] && [MIX[3]][1..] == [];
    assert KeptParams([MIX[3]], ann, afterB) == [] && AutoParams([MIX[3]], ann, afterB) == ["b_len"];
    assert KeptParams(rest, ann, afterA) == [b] && AutoParams(rest, ann, afterA) == ["b_len"];
    assert KeptParams(tail, ann, afterA) == [b] && AutoParams(tail, ann, afterA) == ["a_len", "b_len"];
  }

  lemma {:induction false} TwoMutableArgs(e: ExportedFn, elem: string)
    requires CEntry(e) && "a" !in e.autoParams && "b" !in e.autoParams
    requires e.params == [Param("a", MutArrayPtr(elem, "a_len")), Param("b", MutArrayPtr(elem, "b_len"))]
    ensures CWrapperBody(e).call ==
            WithMut(1, RustElem(elem), [ClosurePtr, CLocal("b_len"), ClosurePtr, CLocal("b_len")])
  {
    hide RustElem;
    var first, second := ExtractionOf(e.params[0], 0), ExtractionOf(e.params[1], 1);
    assert ArgIdx(e, 0) == 0 && ArgIdx(e, 1) == 1;
    assert Extractions(e, 0) == [] && Extractions(e, 1) == [first];
    assert Extractions(e, 2) == [first, second];
    hide ArgIdx, Extractions;
    assert [first, second][..1] == [first] && [first][..0] == [];
    assert ClosureArgs([first], "b_len") == [ClosurePtr, CLocal("b_len")];
    assert ClosureArgs([first, second], "b_len") == [ClosurePtr, CLocal("b_len"), ClosurePtr, CLocal("b_len")];
    assert LastMut([first, second]) == Some(MutInfo(1, RustElem(elem), "b_len"));
    hide ClosureArgs, LastMut, PreLines, FlatArgs;
  }

  /** Its wrapper passes `b` and `b`'s length for both. */
  lemma {:induction false} SecondArrayPassedTwice()
    ensures var e := EntryOf("void", "mix", MIX, BOTH_MUTABLE);
            && CEntry(e)
            && CWrapperBody(e).call == WithMut(1, RustElem(ElementType("float*")),
                                               [ClosurePtr, CLocal("b_len"), ClosurePtr, CLocal("b_len")])
  {
    var e := EntryOf("void", "mix", MIX, BOTH_MUTABLE);
    MixKept();
    hide ElementType, KeptParams, AutoParams, CWrapperBody;
    TwoMutableArgs(e, ElementType("float*"));
  }

  // --------------------------------------------------------------- statics

  function FreeFn(r: CmRet): Option<string> {
    if r.AllocatedArray? || r.AllocatedString? then r.freeFn else None
  }

  /** The symbols an entry's wrappers load: its own, its bulk companion's, or the function
      that frees its result. */
  function SymbolsOf(e: ExportedFn): seq<string> {
    [e.cmName] +
    (if e.lang.Rust? then (if e.hasBulkCm then [e.registryKey + "_bulk_cm"] else [])
     else if FreeFn(e.ret).Some? then [FreeFn(e.ret).value] else [])
  }

  function StaticsOf(symbols: seq<string>): seq<string> {
    seq(|symbols|, i requires 0 <= i < |symbols| => SymStaticName(symbols[i]))
  }

  /** The statics of the generated module, entry by entry. */
  function DeclaredStatics(entries: seq<ExportedFn>): seq<string> {
    if entries == [] then [] else StaticsOf(SymbolsOf(entries[0])) + DeclaredStatics(entries[1..])
  }

  predicate Differ(xs: seq<string>, ys: seq<string>) {
    forall x, y | x in xs && y in ys :: Upper(x) != Upper(y)
  }

  /** Loaded symbols are pairwise different, and not only in case. */
  predicate SymbolsDiffer(entries: seq<ExportedFn>) {
    && (forall e <- entries :: var own := SymbolsOf(e); |own| == 2 ==> Upper(own[0]) != Upper(own[1]))
    && (forall i, j | 0 <= i < j < |entries| :: Differ(SymbolsOf(entries[i]), SymbolsOf(entries[j])))
  }

  lemma {:induction false} StaticsDiffer(x: string, y: string)
    ensures SymStaticName(x) == SymStaticName(y) <==> Upper(x) == Upper(y)
  {
    var a, b := Upper(x), Upper(y);
    hide Upper;
    if SymStaticName(x) == SymStaticName(y) {
      assert |a| == |b| && (a + "_SYM")[..|a|] == a && (b + "_SYM")[..|b|] == b;
    }
  }

  lemma {:induction false} NoDuplicatesAppend(a: seq<string>, b: seq<string>)
    ensures NoDuplicates(a + b) <==> NoDuplicates(a) && NoDuplicates(b) && forall x <- a :: x !in b
  {
    var all := a + b;
    assert forall i | 0 <= i < |a| :: all[i] == a[i];
    assert forall i | 0 <= i < |b| :: all[|a| + i] == b[i];
    if NoDuplicates(all) {
      forall x | x in a ensures x !in b {
        var i :| 0 <= i < |a| && a[i] == x;
        forall k | 0 <= k < |b| ensures b[k] != x {
          assert all[|a| + k] == b[k] && all[i] != all[|a| + k];
        }
      }
    }
    if NoDuplicates(a) && NoDuplicates(b) && forall x <- a :: x !in b {
      forall i, j | 0 <= i < j < |all| ensures all[i] != all[j] {
        assert i < |a| ==> all[i] in a;
        assert j >= |a| ==> all[j] == b[j - |a|] && all[j] in b;
        assert i >= |a| ==> all[i] == b[i - |a|];
      }
    }
  }

  lemma {:induction false} OwnStatics(symbols: seq<string>)
    requires 1 <= |symbols| <= 2
    ensures NoDuplicates(StaticsOf(symbols)) <==> (|symbols| == 2 ==> Upper(symbols[0]) != Upper(symbols[1]))
    ensures forall y :: SymStaticName(y) in StaticsOf(symbols) <==> exists x <- symbols :: Upper(x) == Upper(y)
  {
    var statics := StaticsOf(symbols);
    forall x, y ensures SymStaticName(x) == SymStaticName(y) <==> Upper(x) == Upper(y) { StaticsDiffer(x, y); }
    hide Upper, SymStaticName;
    assert statics[0] == SymStaticName(symbols[0]) && symbols[0] in symbols;
    if |symbols| == 2 {
      assert statics[1] == SymStaticName(symbols[1]) && symbols[1] in symbols;
    }
  }

  lemma {:induction false} SharedStatic(own: seq<string>, entries: seq<ExportedFn>)
    requires 1 <= |own| <= 2
    ensures (forall s <- StaticsOf(own) :: s !in DeclaredStatics(entries)) <==>
            forall e <- entries :: Differ(own, SymbolsOf(e))
  {
    hide Upper, SymStaticName;
    if entries != [] {
      SharedStatic(own, entries[1..]);
      assert forall e <- entries :: e == entries[0] || e in entries[1..];
      assert entries[0] in entries && forall e <- entries[1..] :: e in entries;
      OneShared(own, SymbolsOf(entries[0]));
    }
  }

  lemma {:induction false} OneShared(own: seq<string>, other: seq<string>)
    requires 1 <= |own| <= 2 && 1 <= |other| <= 2
    ensures (forall s <- StaticsOf(own) :: s !in StaticsOf(other)) <==> Differ(own, other)
  {
    OwnStatics(other);
    var statics := StaticsOf(own);
    assert |statics| == |own| && forall i | 0 <= i < |own| :: statics[i] == SymStaticName(own[i]);
    hide Upper, SymStaticName, StaticsOf;
    if Differ(own, other) {
      forall s | s in statics ensures s !in StaticsOf(other) {
        var i :| 0 <= i < |statics| && statics[i] == s;
        assert own[i] in own;
      }
    } else {
      var x, y :| x in own && y in other && Upper(x) == Upper(y);
      var i :| 0 <= i < |own| && own[i] == x;
      assert statics[i] in statics && SymStaticName(x) in StaticsOf(other);
    }
  }

  /** The generated module declares no static twice if and only if all loaded symbols, of
      whichever language, differ in more than case. */
  lemma {:induction false} StaticsDifferExactly(entries: seq<ExportedFn>)
    ensures NoDuplicates(DeclaredStatics(entries)) <==> SymbolsDiffer(entries)
  {
    hide Upper, SymStaticName, StaticsOf;
    if entries != [] {
      var own, rest := SymbolsOf(entries[0]), entries[1..];
      StaticsDifferExactly(rest);
      OwnStatics(own);
      SharedStatic(own, rest);
      NoDuplicatesAppend(StaticsOf(own), DeclaredStatics(rest));
      assert forall e <- entries :: e == entries[0] || e in rest;
      assert entries[0] in entries && forall e <- rest :: e in entries;
      DifferStep(entries);
    }
  }

  lemma {:induction false} DifferStep(entries: seq<ExportedFn>)
    requires entries != []
    ensures (forall i, j | 0 <= i < j < |entries| :: Differ(SymbolsOf(entries[i]), SymbolsOf(entries[j]))) <==>
            && (forall e <- entries[1..] :: Differ(SymbolsOf(entries[0]), SymbolsOf(e)))
            && (forall i, j | 0 <= i < j < |entries[1..]| ::
                 Differ(SymbolsOf(entries[1..][i]), SymbolsOf(entries[1..][j])))
  {
    hide Differ, SymbolsOf;
    var rest := entries[1..];
    assert forall k | 0 <= k < |rest| :: rest[k] == entries[k + 1] && rest[k] in rest;
    assert forall k | 0 < k < |entries| :: entries[k] == rest[k - 1];
  }

  lemma {:induction false} NotInOneModule(entries: seq<ExportedFn>, i: nat, j: nat, x: string, y: string)
    requires i < |entries| && j < |entries| && i != j
    requires x in SymbolsOf(entries[i]) && y in SymbolsOf(entries[j]) && Upper(x) == Upper(y)
    ensures !NoDuplicates(DeclaredStatics(entries))
  {
    StaticsDifferExactly(entries);
    hide Upper, DeclaredStatics, NoDuplicates, SymbolsOf;
    assert !Differ(SymbolsOf(entries[i]), SymbolsOf(entries[j]));
    assert !Differ(SymbolsOf(entries[j]), SymbolsOf(entries[i]));
  }

  /** Two functions with one `free` function, or a `free` function that is exported
      itself, make a header whose wrappers never compile. */
  lemma {:induction false} SharedFreeFunctionClashes(entries: seq<ExportedFn>, i: nat, j: nat)
    requires i < |entries| && j < |entries| && i != j && entries[i].lang.C? && FreeFn(entries[i].ret).Some?
    requires FreeFn(entries[i].ret).value in SymbolsOf(entries[j])
    ensures !NoDuplicates(DeclaredStatics(entries))
  {
    var free := FreeFn(entries[i].ret).value;
    assert SymbolsOf(entries[i])[1] == free;
    NotInOneModule(entries, i, j, free, free);
  }

  /** An exported `free` function, and names that differ only in case. */
  lemma {:induction false} ClashesHappen(ann: Annotation)
    requires ann.freeFn == Some("free_m") && ann.outLen == Some("n")
    ensures var make := EntryOf("float*", "make_m", [RawParam("n", "size_t")], ann);
            var free := EntryOf("void", "free_m", [RawParam("p", "void*")], PLAIN);
            var same := EntryOf("void", "FREE_M", [], PLAIN);
            !NoDuplicates(DeclaredStatics([make, free])) && !NoDuplicates(DeclaredStatics([free, same]))
  {
    var make := EntryOf("float*", "make_m", [RawParam("n", "size_t")], ann);
    var free := EntryOf("void", "free_m", [RawParam("p", "void*")], PLAIN);
    var same := EntryOf("void", "FREE_M", [], PLAIN);
    assert make.ret == AllocatedArray(ElementType("float*"), "n", Some("free_m"));
    assert SymbolsOf(free)[0] == "free_m" && SymbolsOf(same)[0] == "FREE_M";
    assert Upper("free_m") == Upper("FREE_M");
    hide Upper, EntryOf;
    SharedFreeFunctionClashes([make, free], 0, 1);
    var both := [free, same];
    assert both[0] == free && both[1] == same;
    NotInOneModule(both, 0, 1, "free_m", "FREE_M");
  }
}
