/** From Rust signatures to entries: the converter's reading of a function, the
    procedural macro's companion for the same function, and where the two part. */
module Signatures {
  import opened Common
  import opened KernelTypes
  import opened WrapperCode
  import opened RustRenderers
  import opened RustWrappers

  datatype SrcType =
    | RefTo(mutable: bool, inner: SrcType)
    | Path(segments: seq<string>, args: seq<SrcType>)
    | SliceOf(elem: SrcType)
    | OtherType

  /** A parameter whose pattern is not a plain name has no name. */
  datatype SrcParam = SrcParam(name: Option<string>, ty: SrcType)

  datatype SrcFn = SrcFn(
    name: string,
    noMangle: bool,
    exported: bool,
    variadic: bool,
    bulk: bool,
    inputs: seq<SrcParam>,
    output: Option<SrcType>)

  // ------------------------------------------------- the converter's reading

  function PrimKindFromStr(name: string): Option<PrimKind> {
    if name == "bool" then Some(Bool)
    else if name == "i8" then Some(I8)
    else if name == "i16" then Some(I16)
    else if name == "i32" then Some(I32)
    else if name == "i64" then Some(I64)
    else if name == "i128" then Some(I128)
    else if name == "u8" then Some(U8)
    else if name == "u16" then Some(U16)
    else if name == "u32" then Some(U32)
    else if name == "u64" then Some(U64)
    else if name == "u128" then Some(U128)
    else if name == "f32" then Some(F32)
    else if name == "f64" then Some(F64)
    else if name == "usize" then Some(Usize)
    else if name == "isize" then Some(Isize)
    else if name == "char" then Some(Char)
    else None
  }

  /** The last path segment, however long the path. */
  function TypePathIdent(ty: SrcType): Option<string> {
    if ty.Path? && |ty.segments| > 0 then Some(ty.segments[|ty.segments| - 1]) else None
  }

  predicate IsStr(ty: SrcType) {
    ty.Path? && ty.segments == ["str"]
  }

  predicate IsVecCmTypes(ty: SrcType) {
    ty.Path? && ty.segments == ["Vec"] && |ty.args| == 1 && TypePathIdent(ty.args[0]) == Some("CmTypes")
  }

  /** Kind of a parameter of an explicit `_cm` function. */
  function ClassifyCmParam(ty: SrcType): ParamKind {
    match ty
    case RefTo(_, inner) =>
      if IsStr(inner) then StrRef
      else if TypePathIdent(inner) == Some("CmTypes") then CmTypesRef
      else if inner.SliceOf? && TypePathIdent(inner.elem) == Some("CmTypes") then SliceCmTypes
      else if IsVecCmTypes(inner) then VecCmTypes
      else CmTypesRef
    case Path(_, _) =>
      var name := if TypePathIdent(ty).Some? then TypePathIdent(ty).value else "";
      if PrimKindFromStr(name).Some? then Primitive(PrimKindFromStr(name).value)
      else if name == "String" then OwnedString
      else CmTypesRef
    case _ => CmTypesRef
  }

  function ClassifyCmReturn(output: Option<SrcType>): CmRet {
    match output
    case None => Void
    case Some(ty) =>
      var name := if TypePathIdent(ty).Some? then TypePathIdent(ty).value else "";
      if name == "CmTypes" then ReturnsCmTypes
      else if name == "String" then ReturnsString
      else if PrimKindFromStr(name).Some? then ReturnsPrimitive(PrimKindFromStr(name).value)
      else ReturnsCmTypes
  }

  /** Kind the companion of an annotated function is expected to have. */
  function InferCmParamKind(ty: SrcType): ParamKind {
    match ty
    case RefTo(_, inner) => if IsStr(inner) then StrRef else CmTypesRef
    case Path(_, _) =>
      var name := if TypePathIdent(ty).Some? then TypePathIdent(ty).value else "";
      if name == "String" then OwnedString
      else if PrimKindFromStr(name).Some? then Primitive(PrimKindFromStr(name).value)
      else CmTypesRef
    case _ => CmTypesRef
  }

  function RetHintFromOriginal(output: Option<SrcType>): Option<string> {
    match output
    case None => Some("None")
    case Some(ty) =>
      match TypePathIdent(ty)
      case None => None
      case Some(name) =>
        if PrimKindFromStr(name).Some? then Some(PrimKindFromStr(name).value.VariantName())
        else if name == "String" then Some("String")
        else if name == "CmTypes" then None
        else Some("Any")
  }

  /** The two readings of a parameter's type: of an explicit `_cm` function, and of the
      companion an annotated function is expected to get. */
  function KindOf(ty: SrcType, explicit: bool): ParamKind {
    if explicit then ClassifyCmParam(ty) else InferCmParamKind(ty)
  }

  /** Named parameters only, each with the kind of its type. */
  function ExtractParams(inputs: seq<SrcParam>, explicit: bool): (ps: seq<Param>)
    ensures |ps| <= |inputs|
    ensures forall p <- ps :: exists i <- inputs :: i.name == Some(p.name) && p.kind == KindOf(i.ty, explicit)
  {
    if inputs == [] then []
    else
      var rest := ExtractParams(inputs[1..], explicit);
      if inputs[0].name.None? then rest
      else [Param(inputs[0].name.value, KindOf(inputs[0].ty, explicit))] + rest
  }

  function MarkVariadic(ps: seq<Param>): seq<Param> {
    if ps == [] then [] else ps[|ps| - 1 := Param(ps[|ps| - 1].name, SliceCmTypes)]
  }

  function StripSuffix(s: string, suffix: string): string {
    if HasSuffix(s, suffix) then s[..|s| - |suffix|] else s
  }

  function TryExtract(f: SrcFn): Option<ExportedFn> {
    if f.noMangle then
      Some(ExportedFn(
        f.name, StripSuffix(f.name, "_cm"), ExtractParams(f.inputs, true),
        ClassifyCmReturn(f.output), HintFromCmRet(ClassifyCmReturn(f.output)), Rust, [], false))
    else if f.exported then
      var ps := ExtractParams(f.inputs, false);
      Some(ExportedFn(
        f.name + "_cm", f.name, if f.variadic then MarkVariadic(ps) else ps,
        ReturnsCmTypes, RetHintFromOriginal(f.output), Rust, [], false))
    else None
  }

  lemma {:induction false} KindsAreRust(ty: SrcType)
    ensures !ClassifyCmParam(ty).COnly() && !InferCmParamKind(ty).COnly() && !InferCmParamKind(ty).IsVariadic()
  {
    hide PrimKindFromStr;
  }

  lemma {:induction false} ExtractedAreRust(inputs: seq<SrcParam>, explicit: bool)
    ensures forall p <- ExtractParams(inputs, explicit) :: !p.kind.COnly()
    ensures !explicit ==> forall p <- ExtractParams(inputs, explicit) :: !p.kind.IsVariadic()
  {
    hide ParamKind.COnly, ParamKind.IsVariadic, ClassifyCmParam, InferCmParamKind;
    if inputs != [] {
      ExtractedAreRust(inputs[1..], explicit);
      KindsAreRust(inputs[0].ty);
    }
  }

  /** Every collected entry is one the renderers accept; an annotated function's
      variadic parameter is always last, so the wrapper theorems apply to it. */
  lemma {:induction false} CollectedEntriesAreRust(f: SrcFn)
    requires TryExtract(f).Some?
    ensures RustEntry(TryExtract(f).value)
    ensures !f.noMangle ==> VariadicLast(TryExtract(f).value.params)
  {
    hide ExtractParams, PrimKindFromStr, RetHintFromOriginal, HintFromCmRet, StripSuffix;
    ExtractedAreRust(f.inputs, f.noMangle);
  }

  /** `#[no_mangle] pub fn scale(scale: usize) -> usize` */
  const SCALE := SrcFn("scale", true, false, false, false, [SrcParam(Some("scale"), Path(["usize"], []))],
                       Some(Path(["usize"], [])))

  /** Its entry is hygienic and its linked wrapper compiles, but the in-process wrapper
      would call a usize. */
  lemma {:induction false} SameNameIsHidden(access: Access)
    ensures TryExtract(SCALE).Some?
    ensures var e := TryExtract(SCALE).value;
            && RustEntry(e) && Hygienic(e.params) && VariadicLast(e.params)
            && var linked, direct := CachedStatic(SymStaticName(e.cmName)), InProcess(e.cmName);
            && var scope := map[linked := Target("scale", SymType(e)), direct := Target("scale", SymType(e))];
            && Compiles(WrapperBody(e, access, linked), scope)
            && !Compiles(WrapperBody(e, access, direct), scope)
  {
    hide *;
    var e := ScaleEntry();
    var linked, direct := CachedStatic(SymStaticName(e.cmName)), InProcess(e.cmName);
    var scope := map[linked := Target("scale", SymType(e)), direct := Target("scale", SymType(e))];
    CompilesExactly(e, access, linked, scope);
    CompilesExactly(e, access, direct, scope);
    WhatScaleHides(e, linked, direct, scope);
  }

  lemma {:induction false} ScaleEntry() returns (e: ExportedFn)
    ensures TryExtract(SCALE) == Some(e) && RustEntry(e) && e.cmName == "scale"
    ensures e.params == [Param("scale", Primitive(Usize))] && e.ret == ReturnsPrimitive(Usize)
    ensures Hygienic(e.params) && VariadicLast(e.params)
    ensures NoWideParam(e.params) && NoWideReturn(e.ret) && NothingBoundAfterVariadic(e.params)
  {
    e := TryExtract(SCALE).value;
    assert SCALE.inputs[1..] == [];
  }

  /** `#[no_mangle] pub fn widen(x: i128) -> usize` */
  const WIDEN := SrcFn("widen", true, false, false, false, [SrcParam(Some("x"), Path(["i128"], []))],
                       Some(Path(["usize"], [])))

  /** A wide parameter compiles in no wrapper. */
  lemma {:induction false} WideDoesNotCompile(access: Access, callee: Callee, scope: Scope)
    requires callee in scope
    ensures TryExtract(WIDEN).Some?
    ensures var e := TryExtract(WIDEN).value;
            RustEntry(e) && (scope[callee].sig == SymType(e) ==> !Compiles(WrapperBody(e, access, callee), scope))
  {
    var e := TryExtract(WIDEN).value;
    assert WIDEN.inputs[1..] == [];
    assert e.params == [Param("x", Primitive(I128))];
    assert Hygienic(e.params) && VariadicLast(e.params) && e.params[0] in e.params;
    if scope[callee].sig == SymType(e) {
      CompilesExactly(e, access, callee, scope);
      assert !NoWideParam(e.params);
    }
    hide Compiles, WrapperBody, SymType;
  }

  lemma {:induction false} WhatScaleHides(e: ExportedFn, linked: Callee, direct: Callee, scope: Scope)
    requires e.params == [Param("scale", Primitive(Usize))]
    requires linked == CachedStatic(SymStaticName("scale")) && direct == InProcess("scale")
    requires scope.Keys == {linked, direct}
    ensures NoneHidden(e.params, linked, scope) && !NoneHidden(e.params, direct, scope)
  {
    assert e.params[1..] == [] && FixedCount(e.params) == 1;
    assert SymStaticName("scale")[0] == 'S';
    hide Upper, SymStaticName;
    assert Visible(e.params, linked.Name()) && !Visible(e.params, direct.Name());
  }

  // ---------------------------------------------------- the macro's companion

  const REF_CM_TYPES: SrcType := RefTo(false, Path(["CmTypes"], []))
  const SLICE_REF_CM_TYPES: SrcType := RefTo(false, SliceOf(Path(["CmTypes"], [])))

  predicate IsPrimitiveOrString(ty: SrcType) {
    ty.Path? && |ty.segments| == 1 &&
    (PrimKindFromStr(ty.segments[0]).Some? || ty.segments[0] == "String")
  }

  /** Type of one parameter in the companion the macro generates. */
  function CompanionParam(ty: SrcType): SrcType {
    if ty.RefTo? then (if IsStr(ty.inner) then ty else REF_CM_TYPES)
    else if IsPrimitiveOrString(ty) then ty
    else REF_CM_TYPES
  }

  function CompanionParams(f: SrcFn): seq<SrcType> {
    var named := NamedTypes(f.inputs);
    if f.variadic && named != []
    then seq(|named|, i requires 0 <= i < |named| => if i == |named| - 1 then SLICE_REF_CM_TYPES
      else CompanionParam(named[i]))
    else seq(|named|, i requires 0 <= i < |named| => CompanionParam(named[i]))
  }

  function NamedTypes(inputs: seq<SrcParam>): seq<SrcType> {
    if inputs == [] then []
    else (if inputs[0].name.None? then [] else [inputs[0].ty]) + NamedTypes(inputs[1..])
  }

  /** Variant the companion wraps the result into; None when the function returns
      a CmTypes itself. */
  function CompanionVariant(output: Option<SrcType>): Option<string> {
    match output
    case None => Some("None")
    case Some(ty) =>
      if !ty.Path? then Some("Any")
      else if |ty.segments| == 1 then
        if PrimKindFromStr(ty.segments[0]).Some? then Some(PrimKindFromStr(ty.segments[0]).value.VariantName())
        else if ty.segments[0] == "String" then Some("String")
        else if ty.segments[0] == "CmTypes" then None
        else Some("Any")
      else if |ty.segments| > 0 && ty.segments[|ty.segments| - 1] == "CmTypes" then None
      else Some("Any")
  }

  // ------------------------------------------------------------- agreement

  function RustType(kind: PrimKind): string {
    match kind
    case Bool => "bool"
    case I8 => "i8"
    case I16 => "i16"
    case I32 => "i32"
    case I64 => "i64"
    case I128 => "i128"
    case U8 => "u8"
    case U16 => "u16"
    case U32 => "u32"
    case U64 => "u64"
    case U128 => "u128"
    case F32 => "f32"
    case F64 => "f64"
    case Usize => "usize"
    case Isize => "isize"
    case Char => "char"
  }

  /** The source spelling of a slot of the loaded symbol's type. */
  function SpellTy(t: Ty): SrcType {
    match t
    case TScalar(kind) => Path([RustType(kind)], [])
    case TString => Path(["String"], [])
    case TStr => RefTo(false, Path(["str"], []))
    case TVec => Path(["Vec"], [Path(["CmTypes"], [])])
    case TRefCm => REF_CM_TYPES
    case TRefVec => RefTo(false, Path(["Vec"], [Path(["CmTypes"], [])]))
    case TSlice => SLICE_REF_CM_TYPES
  }

  /** Scalar, String and str paths carry no generic arguments. */
  predicate PlainPaths(ty: SrcType) {
    match ty
    case RefTo(_, inner) => IsStr(inner) ==> inner.args == []
    case Path(_, args) => IsPrimitiveOrString(ty) ==> args == []
    case _ => true
  }

  /** A qualified spelling of a scalar or of String: the converter looks at the
      last segment, the macro wants a single one. */
  predicate QualifiedScalar(ty: SrcType) {
    && ty.Path? && |ty.segments| > 1
    && (PrimKindFromStr(ty.segments[|ty.segments| - 1]).Some? || ty.segments[|ty.segments| - 1] == "String")
  }

  predicate MutableStr(ty: SrcType) {
    ty.RefTo? && ty.mutable && IsStr(ty.inner)
  }

  lemma {:induction false} RustTypeRoundTrip(name: string)
    ensures PrimKindFromStr(name).Some? ==> RustType(PrimKindFromStr(name).value) == name
  {
  }

  /** The type the converter loads the symbol at is the companion's, parameter by
      parameter, unless the parameter is a qualified scalar or a `&mut str`. */
  lemma {:induction false} InferredParamMatchesCompanion(ty: SrcType)
    requires PlainPaths(ty)
    ensures !InferCmParamKind(ty).COnly()
    ensures SpellTy(TyOf(InferCmParamKind(ty))) == CompanionParam(ty) <==>
            !QualifiedScalar(ty) && !MutableStr(ty)
  {
    if ty.Path? && |ty.segments| > 0 {
      RustTypeRoundTrip(ty.segments[|ty.segments| - 1]);
      if |ty.segments| == 1 {
        assert ty.segments == [ty.segments[0]];
      }
    }
  }

  lemma {:induction false} NamedTypesMatchParams(inputs: seq<SrcParam>)
    ensures |NamedTypes(inputs)| == |ExtractParams(inputs, false)|
    ensures forall i | 0 <= i < |NamedTypes(inputs)| ::
              ExtractParams(inputs, false)[i].kind == InferCmParamKind(NamedTypes(inputs)[i])
  {
    hide InferCmParamKind;
    if inputs != [] {
      NamedTypesMatchParams(inputs[1..]);
      var rest := NamedTypes(inputs[1..]);
      if inputs[0].name.Some? {
        assert NamedTypes(inputs) == [inputs[0].ty] + rest;
      } else {
        assert NamedTypes(inputs) == rest;
      }
    }
  }

  /** The named parameters whose inferred kind matters: all of them, or all but
      the last of a variadic function. */
  ghost predicate ReadAlike(f: SrcFn) {
    var named := NamedTypes(f.inputs);
    forall i | 0 <= i < |named| && !(f.variadic && i == |named| - 1) ::
      !QualifiedScalar(named[i]) && !MutableStr(named[i])
  }

  lemma {:induction false} ExportedKindAt(f: SrcFn, i: nat)
    requires !f.noMangle && f.exported && i < |NamedTypes(f.inputs)|
    ensures var named := NamedTypes(f.inputs);
            var ps := TryExtract(f).value.params;
            && |ps| == |named|
            && ps[i].kind == if f.variadic && i == |named| - 1 then SliceCmTypes else InferCmParamKind(named[i])
  {
    NamedTypesMatchParams(f.inputs);
  }

  lemma {:induction false} SymParamAgrees(f: SrcFn, i: nat)
    requires !f.noMangle && f.exported && i < |NamedTypes(f.inputs)|
    requires PlainPaths(NamedTypes(f.inputs)[i])
    ensures var named := NamedTypes(f.inputs);
            var kind := if f.variadic && i == |named| - 1 then SliceCmTypes else InferCmParamKind(named[i]);
            && !kind.COnly()
            && (SpellTy(TyOf(kind)) == CompanionParams(f)[i] <==>
                (f.variadic && i == |named| - 1) || (!QualifiedScalar(named[i]) && !MutableStr(named[i])))
  {
    InferredParamMatchesCompanion(NamedTypes(f.inputs)[i]);
  }

  /** For an annotated function the symbol type has the companion's arity, and its
      parameter types exactly when the two readings cannot differ. */
  lemma {:induction false} SymTypeIsTheCompanions(f: SrcFn, e: ExportedFn)
    requires !f.noMangle && f.exported && TryExtract(f) == Some(e)
    requires forall ty <- NamedTypes(f.inputs) :: PlainPaths(ty)
    ensures RustEntry(e)
    ensures SymType(e).ret == RCmTypes
    ensures |SymType(e).params| == |CompanionParams(f)|
    ensures (forall i | 0 <= i < |CompanionParams(f)| :: SpellTy(SymType(e).params[i]) == CompanionParams(f)[i]) <==>
            ReadAlike(f)
  {
    hide InferCmParamKind, SpellTy, TyOf, QualifiedScalar, MutableStr, PlainPaths, NamedTypes;
    CollectedEntriesAreRust(f);
    NamedTypesMatchParams(f.inputs);
    var named := NamedTypes(f.inputs);
    forall i | 0 <= i < |named|
      ensures SpellTy(SymType(e).params[i]) == CompanionParams(f)[i] <==>
              ((f.variadic && i == |named| - 1) || (!QualifiedScalar(named[i]) && !MutableStr(named[i])))
    {
      assert named[i] in named;
      ExportedKindAt(f, i);
      SymParamAgrees(f, i);
    }
  }

  /** The return hint of an annotated function is the variant its companion really
      wraps into, unless the return type is a qualified scalar; then it is wrong. */
  lemma {:induction false} HintMatchesCompanion(output: Option<SrcType>)
    ensures (RetHintFromOriginal(output).Some? ==> RetHintFromOriginal(output) == CompanionVariant(output)) <==>
            !(output.Some? && QualifiedScalar(output.value))
  {
    if output.Some? && QualifiedScalar(output.value) {
      var last := output.value.segments[|output.value.segments| - 1];
      assert PrimKindFromStr("CmTypes") == None;
      if PrimKindFromStr(last).Some? {
        KindOfItsName(PrimKindFromStr(last).value);
        assert KindOfVariant("Any") == None;
      }
    }
    hide PrimKindFromStr, PrimKind.VariantName, KindOfVariant;
  }

  /** A concrete disagreement: `-> std::string::String` is advertised as "String"
      while every call returns an Any. */
  lemma {:induction false} QualifiedStringHintIsWrong()
    ensures RetHintFromOriginal(Some(Path(["std", "string", "String"], []))) == Some("String")
    ensures CompanionVariant(Some(Path(["std", "string", "String"], []))) == Some("Any")
  {
  }

  /** Companions behave as the macro wrote them. */
  ghost predicate CompanionWraps(kernel: Kernel, symbol: string, variant: Option<string>) {
    variant.Some? ==>
      forall inv: Invocation | inv.symbol == symbol ::
        kernel(inv).RawCm? ==> kernel(inv).v.Variant() == variant.value
  }

  lemma {:induction false} PassThroughReturns(b: Body, scope: Scope, kernel: Kernel, args: seq<CmValue>,
          debug: bool, variant: string)
    requires b.wrap == PassThrough && b.callee in scope
    requires CompanionWraps(kernel, scope[b.callee].symbol, Some(variant))
    ensures var r := Run(b, scope, kernel, args, debug); r.Done? ==> r.value.Variant() == variant
  {
    var call := CallOf(b, scope, args, debug);
    if call.Done? {
      assert call.value.symbol == scope[b.callee].symbol;
    }
  }

  /** Whatever hint an annotated function advertises, every completed call of any
      of its wrappers returns that variant. */
  lemma {:induction false} ExportHintIsTheReturnedVariant(f: SrcFn, e: ExportedFn, access: Access,
          callee: Callee, scope: Scope,
                                       kernel: Kernel, args: seq<CmValue>, debug: bool)
    requires !f.noMangle && f.exported && TryExtract(f) == Some(e)
    requires !(f.output.Some? && QualifiedScalar(f.output.value))
    requires callee in scope && CompanionWraps(kernel, scope[callee].symbol, CompanionVariant(f.output))
    requires e.retVariantHint.Some?
    ensures RustEntry(e)
    ensures var b := WrapperBody(e, access, callee);
            var r := Run(b, scope, kernel, args, debug);
            r.Done? ==> r.value.Variant() == e.retVariantHint.value
  {
    CollectedEntriesAreRust(f);
    HintMatchesCompanion(f.output);
    var b := WrapperBody(e, access, callee);
    PassThroughReturns(b, scope, kernel, args, debug, e.retVariantHint.value);
  }

  // ------------------------------------------------------- explicit companions

  /** The last segment of a path says what it names, however it is qualified. */
  predicate Names(ty: SrcType, name: string) {
    TypePathIdent(ty) == Some(name)
  }

  /** What a parameter type is among the types a symbol can be loaded at. */
  function OwnTy(ty: SrcType): Option<Ty> {
    match ty
    case RefTo(mutable, inner) =>
      if mutable then None
      else if Names(inner, "str") then Some(TStr)
      else if Names(inner, "CmTypes") then Some(TRefCm)
      else if inner.SliceOf? && Names(inner.elem, "CmTypes") then Some(TSlice)
      else if Names(inner, "Vec") && |inner.args| == 1 && Names(inner.args[0], "CmTypes") then Some(TRefVec)
      else None
    case Path(segments, _) =>
      if |segments| == 0 then None
      else
        var name := segments[|segments| - 1];
        if PrimKindFromStr(name).Some? then Some(TScalar(PrimKindFromStr(name).value))
        else if name == "String" then Some(TString)
        else None
    case _ => None
  }

  function OwnReturn(output: Option<SrcType>): Option<RetTy> {
    if output.None? then Some(RUnit)
    else if Names(output.value, "CmTypes") then Some(RCmTypes)
    else
      match OwnTy(output.value)
      case Some(TScalar(kind)) => Some(RScalar(kind))
      case Some(TString) => Some(RString)
      case _ => None
  }

  /** Shared references to `str`, CmTypes, [CmTypes] or Vec<CmTypes>, with `str` and `Vec`
      unqualified, and scalars and String by value. */
  predicate Loadable(ty: SrcType) {
    match ty
    case RefTo(mutable, inner) =>
      && !mutable
      && (IsStr(inner) || Names(inner, "CmTypes") || (inner.SliceOf? && Names(inner.elem, "CmTypes")) ||
           IsVecCmTypes(inner))
    case Path(segments, _) =>
      |segments| > 0 && (PrimKindFromStr(segments[|segments| - 1]).Some? || segments[|segments| - 1] == "String")
    case _ => false
  }

  predicate ReturnLoadable(output: Option<SrcType>) {
    output.None? || (output.value.Path? && (Names(output.value, "CmTypes") || Loadable(output.value)))
  }

  lemma {:induction false} ParamLoadedRight(ty: SrcType)
    ensures !ClassifyCmParam(ty).COnly()
    ensures OwnTy(ty) == Some(TyOf(ClassifyCmParam(ty))) <==> Loadable(ty)
  {
    hide PrimKindFromStr;
  }

  function LoadedReturn(output: Option<SrcType>): RetTy {
    match ClassifyCmReturn(output)
    case Void => RUnit
    case ReturnsPrimitive(kind) => RScalar(kind)
    case ReturnsString => RString
    case _ => RCmTypes
  }

  lemma {:induction false} ReturnLoadedRight(output: Option<SrcType>)
    ensures OwnReturn(output) == Some(LoadedReturn(output)) <==> ReturnLoadable(output)
  {
    assert PrimKindFromStr("CmTypes") == None && PrimKindFromStr("String") == None;
    hide PrimKindFromStr;
  }

  predicate AllNamed(inputs: seq<SrcParam>) {
    forall i <- inputs :: i.name.Some?
  }

  lemma {:induction false} NamedAreKept(inputs: seq<SrcParam>)
    ensures |ExtractParams(inputs, true)| == |inputs| <==> AllNamed(inputs)
    ensures AllNamed(inputs) ==>
              forall k | 0 <= k < |inputs| :: ExtractParams(inputs, true)[k].kind == ClassifyCmParam(inputs[k].ty)
  {
    if inputs != [] {
      var ps := ExtractParams(inputs[1..], true);
      NamedAreKept(inputs[1..]);
      assert AllNamed(inputs) <==> inputs[0].name.Some? && AllNamed(inputs[1..]) by {
        assert inputs == [inputs[0]] + inputs[1..];
      }
      assert ExtractParams(inputs, true) == if inputs[0].name.None? then ps
        else [Param(inputs[0].name.value, ClassifyCmParam(inputs[0].ty))] + ps;
      assert |ps| <= |inputs| - 1;
      hide *;
      if inputs[0].name.Some? && AllNamed(inputs[1..]) {
        KindsBehind(Param(inputs[0].name.value, ClassifyCmParam(inputs[0].ty)), ps, inputs);
      }
    }
  }

  lemma {:induction false} KindsBehind(p: Param, ps: seq<Param>, inputs: seq<SrcParam>)
    requires inputs != [] && |ps| == |inputs| - 1 && p.kind == ClassifyCmParam(inputs[0].ty)
    requires forall k | 0 <= k < |ps| :: ps[k].kind == ClassifyCmParam(inputs[1..][k].ty)
    ensures forall k | 0 <= k < |inputs| :: ([p] + ps)[k].kind == ClassifyCmParam(inputs[k].ty)
  {
    hide ClassifyCmParam;
    forall k | 0 <= k < |inputs| ensures ([p] + ps)[k].kind == ClassifyCmParam(inputs[k].ty) {
      assert k > 0 ==> ([p] + ps)[k] == ps[k - 1] && inputs[k] == inputs[1..][k - 1];
    }
  }

  lemma {:induction false} LoadedParts(f: SrcFn, e: ExportedFn)
    requires f.noMangle && TryExtract(f) == Some(e)
    ensures RustEntry(e) && SymType(e).ret == LoadedReturn(f.output)
    ensures |SymType(e).params| == |f.inputs| <==> AllNamed(f.inputs)
    ensures AllNamed(f.inputs) ==>
              forall k | 0 <= k < |f.inputs| :: SymType(e).params[k] == TyOf(ClassifyCmParam(f.inputs[k].ty))
  {
    CollectedEntriesAreRust(f);
    NamedAreKept(f.inputs);
    hide ClassifyCmParam, ClassifyCmReturn, TyOf, ExtractParams, StripSuffix, HintFromCmRet;
  }

  /** The symbol of a `#[no_mangle]` function is loaded at the function's own type if and
      only if all its parameters have names, and it takes and returns loadable types. */
  lemma {:induction false} LoadedTypeIsOwn(f: SrcFn, e: ExportedFn)
    requires f.noMangle && TryExtract(f) == Some(e)
    ensures RustEntry(e)
    ensures var sig := SymType(e);
            (&& |sig.params| == |f.inputs|
             && (forall k | 0 <= k < |f.inputs| :: OwnTy(f.inputs[k].ty) == Some(sig.params[k]))
             && OwnReturn(f.output) == Some(sig.ret)) <==>
            (AllNamed(f.inputs) && (forall i <- f.inputs :: Loadable(i.ty)) && ReturnLoadable(f.output))
  {
    hide *;
    LoadedParts(f, e);
    ReturnLoadedRight(f.output);
    forall k | 0 <= k < |f.inputs|
      ensures !ClassifyCmParam(f.inputs[k].ty).COnly()
      ensures OwnTy(f.inputs[k].ty) == Some(TyOf(ClassifyCmParam(f.inputs[k].ty))) <==> Loadable(f.inputs[k].ty)
    {
      ParamLoadedRight(f.inputs[k].ty);
    }
  }

  /** An owned CmTypes, a slice of floats, a parameter `_: usize` that is dropped, and a
      vector that is returned. */
  lemma {:induction false} FourMisreadings()
    ensures !Loadable(Path(["CmTypes"], [])) && !Loadable(RefTo(false, SliceOf(Path(["f32"], []))))
    ensures !AllNamed([SrcParam(None, Path(["usize"], []))])
    ensures !ReturnLoadable(Some(Path(["Vec"], [Path(["f32"], [])])))
  {
    var unnamed := SrcParam(None, Path(["usize"], []));
    assert unnamed in [unnamed];
  }

  // --------------------------------------------------------- bulk detection

  function NoMangleNames(items: seq<SrcFn>): set<string> {
    set f <- items | f.noMangle :: f.name
  }

  function BulkExportKeys(items: seq<SrcFn>): set<string> {
    set f <- items | f.exported && f.bulk :: f.name
  }

  function ExportCmNames(items: seq<SrcFn>): set<string> {
    set f <- items | f.exported :: f.name + "_cm"
  }

  predicate HasBulk(items: seq<SrcFn>, key: string) {
    || (key + "_bulk_cm" in NoMangleNames(items) && key + "_bulk_cm" !in ExportCmNames(items))
    || key in BulkExportKeys(items)
  }

  function Collected(items: seq<SrcFn>, n: nat): seq<ExportedFn>
    requires n <= |items|
  {
    if n == 0 then []
    else
      var before := Collected(items, n - 1);
      match TryExtract(items[n - 1])
      case None => before
      case Some(e) => before + [e.(hasBulkCm := HasBulk(items, e.registryKey))]
  }

  function AllCollected(items: seq<SrcFn>): seq<ExportedFn> {
    Collected(items, |items|)
  }

  /** One pass over the items, with the three name sets taken beforehand. */
  method CollectEntries(items: seq<SrcFn>) returns (entries: seq<ExportedFn>)
    ensures entries == AllCollected(items)
  {
    var noMangle, bulkKeys, exportCms := NoMangleNames(items), BulkExportKeys(items), ExportCmNames(items);
    entries := [];
    for i := 0 to |items|
      invariant entries == Collected(items, i)
    {
      match TryExtract(items[i]) {
        case None =>
        case Some(e) =>
          var bulkSym := e.registryKey + "_bulk_cm";
          var found := (bulkSym in noMangle && bulkSym !in exportCms) || e.registryKey in bulkKeys;
          entries := entries + [e.(hasBulkCm := found)];
      }
    }
  }

  lemma {:induction false} AllCollectedAreRust(items: seq<SrcFn>, n: nat)
    requires n <= |items|
    ensures forall e <- Collected(items, n) :: RustEntry(e)
  {
    hide TryExtract, RustEntry, HasBulk;
    if n > 0 {
      AllCollectedAreRust(items, n - 1);
      if TryExtract(items[n - 1]).Some? {
        CollectedEntriesAreRust(items[n - 1]);
        BulkFlagIsFree(TryExtract(items[n - 1]).value, HasBulk(items, TryExtract(items[n - 1]).value.registryKey));
      }
    }
  }

  lemma {:induction false} BulkFlagIsFree(e: ExportedFn, bulk: bool)
    requires RustEntry(e)
    ensures RustEntry(e.(hasBulkCm := bulk))
  {
  }

  /** The symbols the macro adds: one `_cm` per export, one `_bulk_cm` per bulk export. */
  ghost function MacroCompanions(items: seq<SrcFn>): set<string> {
    ExportCmNames(items) + set f <- items | f.exported && f.bulk :: f.name + "_bulk_cm"
  }

  lemma {:induction false} SuffixCancels(a: string, b: string, suffix: string)
    requires a + suffix == b + suffix
    ensures a == b
  {
    assert |a| == |b|;
    assert a == (a + suffix)[..|a|] && b == (b + suffix)[..|b|];
  }

  /** When every no_mangle name is one of the macro's companions, an entry is
      marked bulk exactly when its key was exported with `bulk`. */
  lemma {:induction false} BulkDetectionIsExact(items: seq<SrcFn>, n: nat)
    requires n <= |items| && NoMangleNames(items) <= MacroCompanions(items)
    ensures forall e <- Collected(items, n) :: e.hasBulkCm <==> e.registryKey in BulkExportKeys(items)
  {
    if n > 0 {
      BulkDetectionIsExact(items, n - 1);
      if TryExtract(items[n - 1]).Some? {
        var key := TryExtract(items[n - 1]).value.registryKey;
        if HasBulk(items, key) && key !in BulkExportKeys(items) {
          assert key + "_bulk_cm" in MacroCompanions(items);
          var g :| g in items && g.exported && g.bulk && g.name + "_bulk_cm" == key + "_bulk_cm";
          SuffixCancels(g.name, key, "_bulk_cm");
          assert false;
        }
      }
    }
  }

  // ------------------------------------------------ slots of the bulk companion

  predicate IsIndexName(name: string) {
    name == "idx" || name == "index" || name == "i"
  }

  /** Names of the parameters both companions have, in order. */
  function ParamNames(inputs: seq<SrcParam>): seq<string> {
    if inputs == [] then []
    else (if inputs[0].name.None? then [] else [inputs[0].name.value]) + ParamNames(inputs[1..])
  }

  function IndexNames(names: seq<string>, k: nat): (n: nat)
    requires k <= |names|
    ensures n <= k
  {
    if k == 0 then 0 else IndexNames(names, k - 1) + if IsIndexName(names[k - 1]) then 1 else 0
  }

  /** The bulk companion numbers its slots after leaving out the index, which the loop
      supplies; the other parameters find themselves as many places further left. */
  function BulkSlot(names: seq<string>, k: nat): Option<nat>
    requires k < |names|
  {
    if IsIndexName(names[k]) then None else Some(k - IndexNames(names, k))
  }

  method AssignBulkSlots(names: seq<string>) returns (slots: seq<Option<nat>>)
    ensures |slots| == |names| && forall k | 0 <= k < |names| :: slots[k] == BulkSlot(names, k)
  {
    hide IsIndexName;
    slots := [];
    var slot := 0;
    for k := 0 to |names|
      invariant |slots| == k && slot == k - IndexNames(names, k)
      invariant forall j | 0 <= j < k :: slots[j] == BulkSlot(names, j)
    {
      var place := if IsIndexName(names[k]) then None else Some(slot);
      assert place == BulkSlot(names, k);
      slots := slots + [place];
      if place.Some? {
        slot := slot + 1;
      }
    }
  }

  predicate IndexLast(names: seq<string>) {
    forall i, j | 0 <= i < j < |names| && IsIndexName(names[i]) :: IsIndexName(names[j])
  }

  lemma {:induction false} NoneBefore(names: seq<string>, k: nat)
    requires k <= |names|
    ensures IndexNames(names, k) == 0 <==> forall j | 0 <= j < k :: !IsIndexName(names[j])
  {
    hide IsIndexName;
    if k > 0 {
      NoneBefore(names, k - 1);
    }
  }

  lemma {:induction false} BulkSlotIsOwn(names: seq<string>, k: nat)
    requires k < |names| && !IsIndexName(names[k])
    ensures BulkSlot(names, k) == Some(k) <==> forall j | 0 <= j < k :: !IsIndexName(names[j])
  {
    NoneBefore(names, k);
    hide IndexNames, IsIndexName;
  }

  /** The wrapper of the `_cm` companion reads parameter k from slot k. So both companions
      read the same slots exactly when no parameter comes behind the index. */
  lemma {:induction false} BulkSlotsAgreeExactly(f: SrcFn, e: ExportedFn)
    requires !f.noMangle && f.exported && TryExtract(f) == Some(e)
    ensures |e.params| == |ParamNames(f.inputs)|
    ensures forall k | 0 <= k < |e.params| :: e.params[k].name == ParamNames(f.inputs)[k]
    ensures (forall k | 0 <= k < |e.params| && !IsIndexName(e.params[k].name) ::
            BulkSlot(ParamNames(f.inputs), k) == Some(k)) <==>
            IndexLast(ParamNames(f.inputs))
  {
    var names := ParamNames(f.inputs);
    ExtractedNames(f.inputs);
    hide ParamNames, IsIndexName, ExtractParams, BulkSlot, IndexNames;
    forall k | 0 <= k < |names| && !IsIndexName(names[k])
      ensures BulkSlot(names, k) == Some(k) <==> forall j | 0 <= j < k :: !IsIndexName(names[j])
    {
      BulkSlotIsOwn(names, k);
    }
  }

  lemma {:induction false} ExtractedNames(inputs: seq<SrcParam>)
    ensures |ExtractParams(inputs, false)| == |ParamNames(inputs)|
    ensures forall k | 0 <= k < |ParamNames(inputs)| :: ExtractParams(inputs, false)[k].name == ParamNames(inputs)[k]
  {
    if inputs != [] {
      var ps, names := ExtractParams(inputs[1..], false), ParamNames(inputs[1..]);
      var kind := KindOf(inputs[0].ty, false);
      assert ExtractParams(inputs, false) == if inputs[0].name.None? then ps
        else [Param(inputs[0].name.value, kind)] + ps;
      assert ParamNames(inputs) == (if inputs[0].name.None? then [] else [inputs[0].name.value]) + names;
      ExtractedNames(inputs[1..]);
      hide *;
      if inputs[0].name.Some? {
        var p := Param(inputs[0].name.value, kind);
        forall k | 0 <= k < 1 + |names| ensures ([p] + ps)[k].name == ([p.name] + names)[k] {
          assert k > 0 ==> ([p] + ps)[k] == ps[k - 1] && ([p.name] + names)[k] == names[k - 1];
        }
      }
    }
  }

  /** `#[tomii_export(bulk)] fn f(i: usize, x: f32)` */
  const INDEX_FIRST := SrcFn("f", false, true, false, true,
                             [SrcParam(Some("i"), Path(["usize"], [])), SrcParam(Some("x"), Path(["f32"], []))], None)

  /** The bulk companion looks for x where the index is. */
  lemma {:induction false} IndexFirstShifts()
    ensures TryExtract(INDEX_FIRST).Some?
    ensures var e := TryExtract(INDEX_FIRST).value;
            var names := ParamNames(INDEX_FIRST.inputs);
            && |e.params| == |names| == 2 && e.params[1] == Param("x", Primitive(F32))
            && BulkSlot(names, 0) == None && BulkSlot(names, 1) == Some(0) && !IndexLast(names)
  {
    var names := ["i", "x"];
    assert INDEX_FIRST.inputs[1..] == [INDEX_FIRST.inputs[1]] && INDEX_FIRST.inputs[1..][1..] == [];
    assert ParamNames(INDEX_FIRST.inputs) == names;
    assert IsIndexName(names[0]) && !IsIndexName(names[1]);
    assert IndexNames(names, 0) == 0 && IndexNames(names, 1) == 1;
  }
}
