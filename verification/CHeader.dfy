/** C declarations: how parameters are classified, which ones are absorbed as
    lengths, and when the emitted `extern "C"` type has the declared slots. */
module CHeader {
  import opened Common
  import opened KernelTypes

  datatype RawParam = RawParam(name: string, cType: string)

  datatype Annotation = Annotation(
    variadic: bool,
    outLen: Option<string>,
    freeFn: Option<string>,
    arrayParams: seq<string>,
    mutArrayParams: seq<string>)

  /** One slot of an `unsafe extern "C" fn(..)` type. */
  datatype CSlot = SlotPrim(kind: PrimKind) | SlotCStr | SlotMutPtr | SlotConstPtr | SlotPtrArray

  predicate IsSize(t: string) {
    t == "size_t" || t == "usize"
  }

  predicate IsArray(raw: RawParam, ann: Annotation) {
    raw.name in ann.mutArrayParams || raw.name in ann.arrayParams
  }

  function TrimEndStars(s: string): string {
    if s != [] && s[|s| - 1] == '*' then TrimEndStars(s[..|s| - 1]) else s
  }

  function TrimBlanks(s: string): string {
    if s == [] then s
    else if s[0] == ' ' then TrimBlanks(s[1..])
    else if s[|s| - 1] == ' ' then TrimBlanks(s[..|s| - 1])
    else s
  }

  function ElementType(cType: string): string {
    TrimBlanks(TrimEndStars(cType))
  }

  predicate EndsWithStar(t: string) {
    t != [] && t[|t| - 1] == '*'
  }

  /** Annotations first, then the dropped length of a variadic list, then the type. */
  function ClassifyCParam(raw: RawParam, ann: Annotation, ptrArraySeen: bool): Option<ParamKind> {
    var t := raw.cType;
    if raw.name in ann.mutArrayParams then Some(MutArrayPtr(ElementType(t), raw.name + "_len"))
    else if raw.name in ann.arrayParams then Some(ArrayPtr(ElementType(t), raw.name + "_len"))
    else if ptrArraySeen && IsSize(t) then None
    else if IsSize(t) then Some(Primitive(Usize))
    else if t == "int" || t == "int32_t" then Some(Primitive(I32))
    else if t == "int64_t" then Some(Primitive(I64))
    else if t == "uint32_t" || t == "unsigned int" then Some(Primitive(U32))
    else if t == "uint64_t" then Some(Primitive(U64))
    else if t == "float" then Some(Primitive(F32))
    else if t == "double" then Some(Primitive(F64))
    else if t == "bool" || t == "_Bool" then Some(Primitive(Bool))
    else if t == "const char*" || t == "char const*" || t == "char*" then Some(StrRef)
    else if t == "void*" then Some(OpaquePtr)
    else if t == "void**" then Some(SliceCmTypes)
    else if EndsWithStar(t) then Some(OpaquePtr)
    else Some(Primitive(I32))
  }

  function ClassifyCReturn(t: string, ann: Annotation): CmRet {
    if t == "void" then Void
    else if IsSize(t) then ReturnsPrimitive(Usize)
    else if t == "int" || t == "int32_t" then ReturnsPrimitive(I32)
    else if t == "int64_t" then ReturnsPrimitive(I64)
    else if t == "uint32_t" || t == "unsigned int" then ReturnsPrimitive(U32)
    else if t == "uint64_t" then ReturnsPrimitive(U64)
    else if t == "float" then ReturnsPrimitive(F32)
    else if t == "double" then ReturnsPrimitive(F64)
    else if t == "bool" || t == "_Bool" then ReturnsPrimitive(Bool)
    else if t == "char*" then AllocatedString(ann.freeFn)
    else if t == "void*" then
      if ann.outLen.Some? then AllocatedArray("void", ann.outLen.value, ann.freeFn) else ReturnsOpaque
    else if EndsWithStar(t) then
      if ann.outLen.Some? then AllocatedArray(ElementType(t), ann.outLen.value, ann.freeFn) else ReturnsOpaque
    else ReturnsPrimitive(I32)
  }

  /** The parameter last kept, and whether a `void**` was met. */
  datatype ScanState = ScanState(last: Option<Param>, seen: bool)

  const START: ScanState := ScanState(None, false)

  predicate IsCompanionLen(raw: RawParam, last: Option<Param>) {
    last.Some? && (last.value.kind.ArrayPtr? || last.value.kind.MutArrayPtr?) && last.value.kind.lenParam == raw.name
  }

  function Classified(raw: RawParam, ann: Annotation, st: ScanState): Option<ParamKind> {
    if IsCompanionLen(raw, st.last) then None
    else ClassifyCParam(raw, ann, st.seen && ann.variadic)
  }

  function Advance(raw: RawParam, ann: Annotation, st: ScanState): ScanState {
    if IsCompanionLen(raw, st.last) then st
    else
      var seen := st.seen || raw.cType == "void**";
      match Classified(raw, ann, st)
      case Some(kind) => ScanState(Some(Param(raw.name, kind)), seen)
      case None => st.(seen := seen)
  }

  function KeptParams(raws: seq<RawParam>, ann: Annotation, st: ScanState): seq<Param> {
    if raws == [] then []
    else
      var rest := KeptParams(raws[1..], ann, Advance(raws[0], ann, st));
      match Classified(raws[0], ann, st)
      case Some(kind) => [Param(raws[0].name, kind)] + rest
      case None => rest
  }

  function AutoParams(raws: seq<RawParam>, ann: Annotation, st: ScanState): seq<string> {
    if raws == [] then []
    else
      var rest := AutoParams(raws[1..], ann, Advance(raws[0], ann, st));
      if Classified(raws[0], ann, st).None? then [raws[0].name] + rest else rest
  }

  /** The entry of one parsed declaration. */
  method BuildEntry(retType: string, fnName: string, raws: seq<RawParam>, ann: Annotation) returns (e: ExportedFn)
    ensures e == ExportedFn(fnName, fnName, KeptParams(raws, ann, START), ClassifyCReturn(retType, ann), None,
                            C, AutoParams(raws, ann, START), false)
    ensures CEntry(e)
  {
    KeptAreC(raws, ann, START);
    var cmParams: seq<Param> := [];
    var autoParams: seq<string> := [];
    var seenPtrPtr := false;
    NothingScanned(raws, ann);
    ReturnIsC(retType, ann);
    hide KeptParams, AutoParams, Classified, Advance, ClassifyCParam, IsCompanionLen, Remaining, ClassifyCReturn;
    for i := 0 to |raws|
      invariant Remaining(raws, ann, i, cmParams, autoParams, seenPtrPtr)
    {
      var raw := raws[i];
      var last := if cmParams == [] then None else Some(cmParams[|cmParams| - 1]);
      ScanStep(raws, ann, i, cmParams, autoParams, seenPtrPtr);
      ScanBranch(raw, ann, cmParams, seenPtrPtr);
      if IsCompanionLen(raw, last) {
        autoParams := autoParams + [raw.name];
        continue;
      }
      var ptrPtrBefore := seenPtrPtr && ann.variadic;
      if raw.cType == "void**" {
        seenPtrPtr := true;
      }
      match ClassifyCParam(raw, ann, ptrPtrBefore) {
        case Some(kind) =>
          cmParams := cmParams + [Param(raw.name, kind)];
        case None =>
          autoParams := autoParams + [raw.name];
      }
    }
    AllScanned(raws, ann, cmParams, autoParams, seenPtrPtr);
    e := ExportedFn(fnName, fnName, cmParams, ClassifyCReturn(retType, ann), None, C, autoParams, false);
  }

  lemma {:induction false} ReturnIsC(t: string, ann: Annotation)
    ensures !ClassifyCReturn(t, ann).RustOnly()
  {
  }

  lemma {:induction false} NothingScanned(raws: seq<RawParam>, ann: Annotation)
    ensures Remaining(raws, ann, 0, [], [], false)
  {
    assert raws[0..] == raws;
    assert [] + KeptParams(raws, ann, START) == KeptParams(raws, ann, START);
    assert [] + AutoParams(raws, ann, START) == AutoParams(raws, ann, START);
    hide KeptParams, AutoParams;
  }

  lemma {:induction false} AllScanned(raws: seq<RawParam>, ann: Annotation, cmParams: seq<Param>,
          autoParams: seq<string>,
          seen: bool)
    requires Remaining(raws, ann, |raws|, cmParams, autoParams, seen)
    ensures cmParams == KeptParams(raws, ann, START) && autoParams == AutoParams(raws, ann, START)
  {
    assert raws[|raws|..] == [];
    var st := StateOf(cmParams, seen);
    assert KeptParams([], ann, st) == [] && AutoParams([], ann, st) == [];
    hide KeptParams, AutoParams;
    assert cmParams + [] == cmParams && autoParams + [] == autoParams;
  }

  /** What the loop's branches mean for the scan. */
  lemma {:induction false} ScanBranch(raw: RawParam, ann: Annotation, cmParams: seq<Param>, seen: bool)
    ensures var st := StateOf(cmParams, seen);
            if IsCompanionLen(raw, st.last) then Classified(raw, ann, st) == None && Advance(raw, ann, st).seen == seen
            else Classified(raw, ann, st) == ClassifyCParam(raw, ann, seen && ann.variadic) &&
                 Advance(raw, ann, st).seen == (seen || raw.cType == "void**")
  {
    hide ClassifyCParam, IsCompanionLen;
  }

  ghost function StateOf(cmParams: seq<Param>, seen: bool): ScanState {
    ScanState(if cmParams == [] then None else Some(cmParams[|cmParams| - 1]), seen)
  }

  /** What the scan has kept and absorbed so far, and what it will still do. */
  ghost predicate Remaining(raws: seq<RawParam>, ann: Annotation, i: nat, cmParams: seq<Param>,
                            autoParams: seq<string>, seen: bool)
    requires i <= |raws|
  {
    && cmParams + KeptParams(raws[i..], ann, StateOf(cmParams, seen)) == KeptParams(raws, ann, START)
    && autoParams + AutoParams(raws[i..], ann, StateOf(cmParams, seen)) == AutoParams(raws, ann, START)
  }

  lemma {:induction false} ScanStep(raws: seq<RawParam>, ann: Annotation, i: nat, cmParams: seq<Param>,
                 autoParams: seq<string>, seen: bool)
    requires i < |raws| && Remaining(raws, ann, i, cmParams, autoParams, seen)
    ensures var st := StateOf(cmParams, seen);
            var next := Advance(raws[i], ann, st);
            match Classified(raws[i], ann, st)
            case None => StateOf(cmParams, next.seen) == next &&
                         Remaining(raws, ann, i + 1, cmParams, autoParams + [raws[i].name], next.seen)
            case Some(kind) => Remaining(raws, ann, i + 1, cmParams + [Param(raws[i].name, kind)], autoParams,
              next.seen)
  {
    var st := StateOf(cmParams, seen);
    var next := Advance(raws[i], ann, st);
    assert raws[i..][0] == raws[i] && raws[i..][1..] == raws[i + 1..];
    match Classified(raws[i], ann, st)
    case None =>
      var rest := AutoParams(raws[i + 1..], ann, next);
      assert autoParams + ([raws[i].name] + rest) == (autoParams + [raws[i].name]) + rest;
    case Some(kind) =>
      var p := Param(raws[i].name, kind);
      var rest := KeptParams(raws[i + 1..], ann, next);
      assert cmParams + ([p] + rest) == (cmParams + [p]) + rest;
      assert StateOf(cmParams + [p], next.seen) == next;
  }

  // ------------------------------------------------------------ symbol type

  /** Slots one parameter occupies: lists and arrays bring their length along. */
  function SlotsOf(kind: ParamKind): seq<CSlot>
    requires !kind.RustOnly()
  {
    match kind
    case Primitive(prim) => [SlotPrim(prim)]
    case StrRef => [SlotCStr]
    case OpaquePtr => [SlotMutPtr]
    case ArrayPtr(_, _) => [SlotConstPtr, SlotPrim(Usize)]
    case MutArrayPtr(_, _) => [SlotMutPtr, SlotPrim(Usize)]
    case SliceCmTypes => [SlotPtrArray, SlotPrim(Usize)]
  }

  function CSlots(ps: seq<Param>): seq<CSlot>
    requires forall p <- ps :: !p.kind.RustOnly()
  {
    if ps == [] then [] else SlotsOf(ps[0].kind) + CSlots(ps[1..])
  }

  method BuildCSymType(e: ExportedFn) returns (slots: seq<CSlot>)
    requires CEntry(e)
    ensures slots == CSlots(e.params)
  {
    hide SlotsOf;
    slots := [];
    for i := 0 to |e.params|
      invariant slots + CSlots(e.params[i..]) == CSlots(e.params)
    {
      assert e.params[i] in e.params;
      assert e.params[i..][0] == e.params[i] && e.params[i..][1..] == e.params[i + 1..];
      slots := slots + SlotsOf(e.params[i].kind);
    }
  }

  // ------------------------------------------------- the declaration's own type

  /** What a parameter is to a caller of the C function: a scalar of known width, an
      address, or a value of a type only the C compiler knows. */
  datatype AbiSlot = Scalar(kind: PrimKind) | Address | ByValue(cType: string)

  /** The converter's table of value types. */
  function ScalarType(t: string): Option<PrimKind> {
    if IsSize(t) then Some(Usize)
    else if t in {"int", "int32_t"} then Some(I32)
    else if t == "int64_t" then Some(I64)
    else if t in {"uint32_t", "unsigned int"} then Some(U32)
    else if t == "uint64_t" then Some(U64)
    else if t == "float" then Some(F32)
    else if t == "double" then Some(F64)
    else if t in {"bool", "_Bool"} then Some(Bool)
    else None
  }

  /** The same with the other spellings and widths that C fixes. */
  function CScalar(t: string): Option<PrimKind> {
    if ScalarType(t).Some? then ScalarType(t)
    else if t in {"signed", "signed int"} then Some(I32)
    else if t == "unsigned" then Some(U32)
    else if t in {"int8_t", "signed char"} then Some(I8)
    else if t in {"uint8_t", "unsigned char"} then Some(U8)
    else if t in {"int16_t", "short"} then Some(I16)
    else if t in {"uint16_t", "unsigned short"} then Some(U16)
    else if t == "long long" then Some(I64)
    else if t == "unsigned long long" then Some(U64)
    else None
  }

  /** Without the qualifiers at either end. */
  function Unqualified(t: string): string
    decreases |t|
  {
    if "const " <= t then Unqualified(t[6..])
    else if "volatile " <= t then Unqualified(t[9..])
    else if HasSuffix(t, " const") then Unqualified(t[..|t| - 6])
    else if HasSuffix(t, "*const") then Unqualified(t[..|t| - 5])
    else t
  }

  /** A C type read for itself, whatever the annotation says about the parameter. */
  function DeclaredSlot(t: string): AbiSlot {
    var u := Unqualified(t);
    if EndsWithStar(u) then Address
    else if CScalar(u).Some? then Scalar(CScalar(u).value)
    else ByValue(u)
  }

  lemma {:induction false} StarStays(t: string)
    requires EndsWithStar(t)
    ensures EndsWithStar(Unqualified(t))
    decreases |t|
  {
    if "const " <= t {
      assert t[5] == ' ' && |t| > 6;
      StarStays(t[6..]);
    } else if "volatile " <= t {
      assert t[8] == ' ' && |t| > 9;
      StarStays(t[9..]);
    }
  }

  lemma {:induction false} QualifiersShow(t: string)
    ensures "const " <= t || "volatile " <= t || HasSuffix(t, " const") || HasSuffix(t, "*const") ==>
              ' ' in t || '*' in t
  {
    if "const " <= t {
      assert t[5] == ' ';
    } else if "volatile " <= t {
      assert t[8] == ' ';
    } else if HasSuffix(t, " const") || HasSuffix(t, "*const") {
      assert t[|t| - 6..][0] == t[|t| - 6];
    }
  }

  lemma {:induction false} OneWord(t: string)
    requires ' ' !in t && '*' !in t
    ensures Unqualified(t) == t
  {
    QualifiersShow(t);
    hide HasSuffix;
  }

  lemma {:induction false} UnsignedInt()
    ensures Unqualified("unsigned int") == "unsigned int"
  {
    var t := "unsigned int";
    assert t[6..] == "ed int" && t[6..][0] == 'e';
  }

  lemma {:induction false} TableWords(t: string)
    requires ScalarType(t).Some?
    ensures t == "unsigned int" || (' ' !in t && '*' !in t)
  {
  }

  /** Pointers are addresses, and types of the table are what the table says. */
  lemma {:induction false} PlainReading(t: string)
    ensures EndsWithStar(t) ==> DeclaredSlot(t) == Address && ScalarType(t).None?
    ensures ScalarType(t).Some? ==> DeclaredSlot(t) == Scalar(ScalarType(t).value)
  {
    if EndsWithStar(t) {
      StarStays(t);
    }
    if ScalarType(t).Some? {
      TableWords(t);
      if t == "unsigned int" {
        UnsignedInt();
      } else {
        OneWord(t);
        assert EndsWithStar(t) ==> '*' in t;
      }
    }
    hide Unqualified, ScalarType;
  }

  function DeclaredSlots(raws: seq<RawParam>): seq<AbiSlot> {
    seq(|raws|, i requires 0 <= i < |raws| => DeclaredSlot(raws[i].cType))
  }

  function Abi(slot: CSlot): AbiSlot {
    if slot.SlotPrim? then Scalar(slot.kind) else Address
  }

  function AbiOf(slots: seq<CSlot>): seq<AbiSlot> {
    seq(|slots|, i requires 0 <= i < |slots| => Abi(slots[i]))
  }

  /** A pointer, a type of the table, or a 32-bit int however it is spelled, which is what
      everything else is taken for. */
  predicate KnownType(t: string) {
    EndsWithStar(t) || ScalarType(t).Some? || DeclaredSlot(t) == Scalar(I32)
  }

  /** The type is one the converter knows, and only pointers are annotated as arrays. */
  predicate ReadRight(raw: RawParam, ann: Annotation) {
    if IsArray(raw, ann) then DeclaredSlot(raw.cType) == Address else KnownType(raw.cType)
  }

  /** The place behind an array or a pointer list (that is not itself such a place): the
      one for its length. */
  predicate LengthPlace(raws: seq<RawParam>, ann: Annotation, k: nat)
    requires k <= |raws|
  {
    k > 0 && !LengthPlace(raws, ann, k - 1) && (IsArray(raws[k - 1], ann) || raws[k - 1].cType == "void**")
  }

  predicate ListSeen(raws: seq<RawParam>, ann: Annotation, k: nat)
    requires k <= |raws|
  {
    ann.variadic && exists j | 0 <= j < k :: raws[j].cType == "void**"
  }

  /** `NAME_len`, NAME being the array before it or before the length before it. */
  predicate NamesItsLength(raws: seq<RawParam>, ann: Annotation, k: nat, name: string)
    requires k <= |raws|
  {
    k > 0 &&
    var before := raws[if LengthPlace(raws, ann, k - 1) then k - 2 else k - 1];
    IsArray(before, ann) && name == before.name + "_len"
  }

  /** The parameter is taken for a length: by its name, or as a `size_t` somewhere behind
      a `void**` of a variadic function. */
  predicate TakenForLength(raws: seq<RawParam>, ann: Annotation, k: nat)
    requires k < |raws|
  {
    || NamesItsLength(raws, ann, k, raws[k].name)
    || (ListSeen(raws, ann, k) && IsSize(raws[k].cType) && !IsArray(raws[k], ann))
  }

  predicate DeclaredWell(raws: seq<RawParam>, ann: Annotation, k: nat)
    requires k < |raws|
  {
    if LengthPlace(raws, ann, k) then TakenForLength(raws, ann, k) && DeclaredSlot(raws[k].cType) == Scalar(Usize)
    else !TakenForLength(raws, ann, k) && ReadRight(raws[k], ann)
  }

  /** Every array and every pointer list is followed by a `size_t` taken for its length,
      no other parameter is taken for one, and all types are read right. */
  predicate WellDeclared(raws: seq<RawParam>, ann: Annotation) {
    (forall k | 0 <= k < |raws| :: DeclaredWell(raws, ann, k)) && !LengthPlace(raws, ann, |raws|)
  }

  // -------------------------------------------------------------- comparing them

  predicate BringsLength(kind: ParamKind) {
    kind.ArrayPtr? || kind.MutArrayPtr? || kind.SliceCmTypes?
  }

  /** The same, in the order of the scan: `owed` says the previous parameter still waits
      for its length. */
  predicate Balanced(raws: seq<RawParam>, ann: Annotation, st: ScanState, owed: bool) {
    if raws == [] then !owed
    else
      var next := Advance(raws[0], ann, st);
      match Classified(raws[0], ann, st)
      case None => owed && DeclaredSlot(raws[0].cType) == Scalar(Usize) && Balanced(raws[1..], ann, next, false)
      case Some(kind) => !owed && ReadRight(raws[0], ann) && Balanced(raws[1..], ann, next, BringsLength(kind))
  }

  lemma {:induction false} KeptAreC(raws: seq<RawParam>, ann: Annotation, st: ScanState)
    ensures forall p <- KeptParams(raws, ann, st) :: !p.kind.RustOnly()
  {
    hide Advance, IsArray;
    if raws != [] {
      KeptAreC(raws[1..], ann, Advance(raws[0], ann, st));
    }
  }

  /** The slots of the kept parameters. */
  ghost function Emitted(raws: seq<RawParam>, ann: Annotation, st: ScanState): seq<AbiSlot> {
    KeptAreC(raws, ann, st);
    AbiOf(CSlots(KeptParams(raws, ann, st)))
  }

  /** For each emitted slot the declared parameter it was emitted for; lengths have none. */
  ghost function Owners(raws: seq<RawParam>, ann: Annotation, st: ScanState, at: nat): seq<Option<nat>> {
    if raws == [] then []
    else
      var rest := Owners(raws[1..], ann, Advance(raws[0], ann, st), at + 1);
      match Classified(raws[0], ann, st)
      case None => rest
      case Some(kind) => [Some(at)] + (if BringsLength(kind) then [None] else []) + rest
  }

  ghost predicate AtHome(owners: seq<Option<nat>>, at: nat) {
    forall k | 0 <= k < |owners| && owners[k].Some? :: owners[k].value == at + k
  }

  /** With the length that is still due in front. */
  function WithLength(owed: bool, slots: seq<AbiSlot>): seq<AbiSlot> {
    if owed then [Scalar(Usize)] + slots else slots
  }

  /** A kept parameter's first slot is the declared one exactly when its type is read
      right; a length follows it exactly when its kind brings one. */
  lemma {:induction false} ClassifiedSlots(raw: RawParam, ann: Annotation, st: ScanState)
    requires Classified(raw, ann, st).Some?
    ensures var kind := Classified(raw, ann, st).value;
            && !kind.RustOnly()
            && AbiOf(SlotsOf(kind)) == [Abi(SlotsOf(kind)[0])] + WithLength(BringsLength(kind), [])
            && (Abi(SlotsOf(kind)[0]) == DeclaredSlot(raw.cType) <==> ReadRight(raw, ann))
            && (BringsLength(kind) ==> Abi(SlotsOf(kind)[0]) == Address)
            && (BringsLength(kind) <==> IsArray(raw, ann) || raw.cType == "void**")
  {
    var kind := Classified(raw, ann, st).value;
    if IsArray(raw, ann) {
      assert kind.ArrayPtr? || kind.MutArrayPtr?;
    } else {
      PlainSlot(raw, ann, st.seen && ann.variadic);
    }
    hide ClassifyCParam, DeclaredSlot, IsArray;
  }

  /** A parameter that is not annotated: the classifier against the type read alone. */
  lemma {:induction false} PlainSlot(raw: RawParam, ann: Annotation, ptrArraySeen: bool)
    requires !IsArray(raw, ann) && ClassifyCParam(raw, ann, ptrArraySeen).Some?
    ensures var kind := ClassifyCParam(raw, ann, ptrArraySeen).value;
            && !kind.RustOnly() && !kind.ArrayPtr? && !kind.MutArrayPtr?
            && (kind.SliceCmTypes? <==> raw.cType == "void**")
            && (if kind.Primitive? then Scalar(kind.prim) == DeclaredSlot(raw.cType) <==> KnownType(raw.cType)
                else EndsWithStar(raw.cType) && DeclaredSlot(raw.cType) == Address)
  {
    PlainReading(raw.cType);
    TableIsUsed(raw, ann, ptrArraySeen);
    hide ClassifyCParam, ScalarType, DeclaredSlot, EndsWithStar;
  }

  /** The classifier's branches: pointers, the table, and the i32 for everything else. */
  lemma {:induction false} TableIsUsed(raw: RawParam, ann: Annotation, ptrArraySeen: bool)
    requires !IsArray(raw, ann) && ClassifyCParam(raw, ann, ptrArraySeen).Some?
    ensures var kind, t := ClassifyCParam(raw, ann, ptrArraySeen).value, raw.cType;
            && !kind.RustOnly() && !kind.ArrayPtr? && !kind.MutArrayPtr?
            && (kind.SliceCmTypes? <==> t == "void**")
            && (if kind.Primitive?
                then !EndsWithStar(t) && kind.prim == (if ScalarType(t).Some? then ScalarType(t).value else I32)
                else EndsWithStar(t))
  {
    hide ElementType;
  }

  lemma {:induction false} AbiAppend(a: seq<CSlot>, b: seq<CSlot>)
    ensures AbiOf(a + b) == AbiOf(a) + AbiOf(b)
  {
  }

  lemma {:induction false} KeptUnfolds(raws: seq<RawParam>, ann: Annotation, st: ScanState)
    requires raws != []
    ensures var rest := KeptParams(raws[1..], ann, Advance(raws[0], ann, st));
            KeptParams(raws, ann, st) ==
            match Classified(raws[0], ann, st) case Some(kind) => [Param(raws[0].name, kind)] + rest case None => rest
    ensures (forall p <- KeptParams(raws, ann, st) :: !p.kind.RustOnly()) &&
            Emitted(raws, ann, st) == AbiOf(CSlots(KeptParams(raws, ann, st)))
  {
    KeptAreC(raws, ann, st);
    hide Classified, Advance, AbiOf, CSlots;
  }

  lemma {:induction false} SlotsCons(p: Param, ps: seq<Param>)
    requires !p.kind.RustOnly() && forall q <- ps :: !q.kind.RustOnly()
    ensures forall q <- [p] + ps :: !q.kind.RustOnly()
    ensures AbiOf(CSlots([p] + ps)) == AbiOf(SlotsOf(p.kind)) + AbiOf(CSlots(ps))
  {
    assert ([p] + ps)[0] == p && ([p] + ps)[1..] == ps;
    AbiAppend(SlotsOf(p.kind), CSlots(ps));
    hide SlotsOf, AbiOf;
  }

  lemma {:induction false} EmittedStep(raws: seq<RawParam>, ann: Annotation, st: ScanState)
    requires raws != []
    ensures DeclaredSlots(raws) == [DeclaredSlot(raws[0].cType)] + DeclaredSlots(raws[1..])
    ensures var rest := Emitted(raws[1..], ann, Advance(raws[0], ann, st));
            match Classified(raws[0], ann, st)
            case None => Emitted(raws, ann, st) == rest
            case Some(kind) =>
              && !kind.RustOnly()
              && Emitted(raws, ann, st) == [Abi(SlotsOf(kind)[0])] + WithLength(BringsLength(kind), rest)
              && (Abi(SlotsOf(kind)[0]) == DeclaredSlot(raws[0].cType) <==> ReadRight(raws[0], ann))
              && (BringsLength(kind) ==> Abi(SlotsOf(kind)[0]) == Address)
  {
    var next := Advance(raws[0], ann, st);
    KeptUnfolds(raws, ann, st);
    KeptAreC(raws[1..], ann, next);
    assert DeclaredSlots(raws) == [DeclaredSlot(raws[0].cType)] + DeclaredSlots(raws[1..]) by { hide DeclaredSlot; }
    hide ClassifyCParam, Classified, Advance, DeclaredSlot, DeclaredSlots, SlotsOf, KeptParams, CSlots, AbiOf,
         BringsLength, ReadRight;
    if Classified(raws[0], ann, st).Some? {
      ClassifiedSlots(raws[0], ann, st);
      var kind := Classified(raws[0], ann, st).value;
      SlotsCons(Param(raws[0].name, kind), KeptParams(raws[1..], ann, next));
      LengthBehind(Abi(SlotsOf(kind)[0]), BringsLength(kind), Emitted(raws[1..], ann, next));
    }
  }

  lemma {:induction false} LengthBehind(first: AbiSlot, brings: bool, rest: seq<AbiSlot>)
    ensures ([first] + WithLength(brings, [])) + rest == [first] + WithLength(brings, rest)
  {
  }

  lemma {:induction false} ConsIsInjective<T>(x: T, xs: seq<T>, y: T, ys: seq<T>)
    ensures [x] + xs == [y] + ys <==> x == y && xs == ys
  {
    assert ([x] + xs)[0] == x && ([x] + xs)[1..] == xs;
    assert ([y] + ys)[0] == y && ([y] + ys)[1..] == ys;
  }

  // ------------------------------------------------------ slots in their places

  /** An emitted slot and the place of the parameter it was emitted for. */
  datatype Placed = Placed(owner: Option<nat>, slot: AbiSlot)

  ghost function PlacedSlots(raws: seq<RawParam>, ann: Annotation, st: ScanState, at: nat): seq<Placed> {
    if raws == [] then []
    else
      var rest := PlacedSlots(raws[1..], ann, Advance(raws[0], ann, st), at + 1);
      match Classified(raws[0], ann, st)
      case None => rest
      case Some(kind) =>
        ClassifiedSlots(raws[0], ann, st);
        [Placed(Some(at), Abi(SlotsOf(kind)[0]))] + WithDue(BringsLength(kind), rest)
  }

  function WithDue(owed: bool, slots: seq<Placed>): seq<Placed> {
    if owed then [Placed(None, Scalar(Usize))] + slots else slots
  }

  predicate Suits(p: Placed, raw: RawParam, at: nat) {
    p.slot == DeclaredSlot(raw.cType) && (p.owner.Some? ==> p.owner.value == at)
  }

  ghost predicate Matches(slots: seq<Placed>, raws: seq<RawParam>, at: nat) {
    |slots| == |raws| && forall k | 0 <= k < |raws| :: Suits(slots[k], raws[k], at + k)
  }

  lemma {:induction false} MatchesCons(p: Placed, rest: seq<Placed>, raws: seq<RawParam>, at: nat)
    ensures Matches([p] + rest, raws, at) <==>
            raws != [] && Suits(p, raws[0], at) && Matches(rest, raws[1..], at + 1)
  {
    hide Suits;
    var all := [p] + rest;
    if Matches(all, raws, at) {
      assert all[0] == p;
      forall k | 0 <= k < |raws| - 1 ensures Suits(rest[k], raws[1..][k], at + 1 + k) {
        assert all[k + 1] == rest[k] && Suits(all[k + 1], raws[k + 1], at + (k + 1));
      }
    }
    if raws != [] && Suits(p, raws[0], at) && Matches(rest, raws[1..], at + 1) {
      forall k | 0 <= k < |raws| ensures Suits(all[k], raws[k], at + k) {
        if k > 0 {
          assert all[k] == rest[k - 1] && raws[k] == raws[1..][k - 1];
          assert Suits(rest[k - 1], raws[1..][k - 1], at + 1 + (k - 1));
        }
      }
    }
  }

  ghost predicate Agree(slots: seq<Placed>, owners: seq<Option<nat>>, emitted: seq<AbiSlot>) {
    && |slots| == |owners| == |emitted|
    && forall k | 0 <= k < |slots| :: slots[k].owner == owners[k] && slots[k].slot == emitted[k]
  }

  lemma {:induction false} AgreeCons(at: nat, first: AbiSlot, brings: bool, slots: seq<Placed>,
          owners: seq<Option<nat>>, emitted: seq<AbiSlot>)
    requires Agree(slots, owners, emitted)
    ensures Agree([Placed(Some(at), first)] + WithDue(brings, slots),
                  [Some(at)] + (if brings then [None] else []) + owners,
                  [first] + WithLength(brings, emitted))
  {
  }

  lemma {:induction false} OwnersUnfolds(raws: seq<RawParam>, ann: Annotation, st: ScanState, at: nat)
    requires raws != []
    ensures var rest := Owners(raws[1..], ann, Advance(raws[0], ann, st), at + 1);
            Owners(raws, ann, st, at) ==
            match Classified(raws[0], ann, st)
            case None => rest
            case Some(kind) => [Some(at)] + (if BringsLength(kind) then [None] else []) + rest
  {
    hide ClassifyCParam, Classified, Advance, BringsLength;
  }

  /** The slots are the emitted ones, and parameters only move forward. */
  lemma {:induction false} PlacedAreEmitted(raws: seq<RawParam>, ann: Annotation, st: ScanState, at: nat)
    ensures Agree(PlacedSlots(raws, ann, st, at), Owners(raws, ann, st, at), Emitted(raws, ann, st))
    ensures var slots := PlacedSlots(raws, ann, st, at);
            slots != [] ==> slots[0].owner.Some? && slots[0].owner.value >= at
  {
    if raws == [] {
      assert Emitted(raws, ann, st) == [];
    } else {
      PlacedUnfolds(raws, ann, st, at);
      OwnersUnfolds(raws, ann, st, at);
      EmittedStep(raws, ann, st);
      hide *;
      var next := Advance(raws[0], ann, st);
      PlacedAreEmitted(raws[1..], ann, next, at + 1);
      match Classified(raws[0], ann, st)
      case None =>
      case Some(kind) =>
        AgreeCons(at, Abi(SlotsOf(kind)[0]), BringsLength(kind), PlacedSlots(raws[1..], ann, next, at + 1),
                  Owners(raws[1..], ann, next, at + 1), Emitted(raws[1..], ann, next));
    }
  }

  /** Every declared parameter has its own slot, in its own place, exactly when the scan
      is balanced. */
  lemma {:induction false} BalancedIsInPlace(raws: seq<RawParam>, ann: Annotation, st: ScanState, owed: bool, at: nat)
    ensures Balanced(raws, ann, st, owed) <==> Matches(WithDue(owed, PlacedSlots(raws, ann, st, at)), raws, at)
  {
    if raws != [] {
      PlacedUnfolds(raws, ann, st, at);
      BalancedUnfolds(raws, ann, st, owed);
      PlacedAreEmitted(raws[1..], ann, Advance(raws[0], ann, st), at + 1);
      WithDueIs(owed, PlacedSlots(raws, ann, st, at));
      SuitsIs(raws[0], at);
      hide *;
      var next := Advance(raws[0], ann, st);
      var rest := PlacedSlots(raws[1..], ann, next, at + 1);
      match Classified(raws[0], ann, st)
      case None =>
        if owed {
          BalancedIsInPlace(raws[1..], ann, next, false, at + 1);
          WithDueIs(false, rest);
          MatchesCons(Placed(None, Scalar(Usize)), rest, raws, at);
        } else {
          MatchesStart(rest, raws, at);
        }
      case Some(kind) =>
        var own, behind := Placed(Some(at), Abi(SlotsOf(kind)[0])), WithDue(BringsLength(kind), rest);
        if owed {
          MatchesCons(Placed(None, Scalar(Usize)), [own] + behind, raws, at);
          MatchesStart([own] + behind, raws[1..], at + 1);
        } else {
          BalancedIsInPlace(raws[1..], ann, next, BringsLength(kind), at + 1);
          MatchesCons(own, behind, raws, at);
        }
    }
  }

  lemma {:induction false} PlacedUnfolds(raws: seq<RawParam>, ann: Annotation, st: ScanState, at: nat)
    requires raws != []
    ensures var rest := PlacedSlots(raws[1..], ann, Advance(raws[0], ann, st), at + 1);
            match Classified(raws[0], ann, st)
            case None => PlacedSlots(raws, ann, st, at) == rest
            case Some(kind) =>
              && !kind.RustOnly() && |SlotsOf(kind)| > 0
              && PlacedSlots(raws, ann, st, at) ==
                   [Placed(Some(at), Abi(SlotsOf(kind)[0]))] + WithDue(BringsLength(kind), rest)
              && (Abi(SlotsOf(kind)[0]) == DeclaredSlot(raws[0].cType) <==> ReadRight(raws[0], ann))
  {
    if Classified(raws[0], ann, st).Some? {
      ClassifiedSlots(raws[0], ann, st);
    }
    hide ClassifyCParam, Classified, Advance, SlotsOf, DeclaredSlot, BringsLength, ReadRight;
  }

  lemma {:induction false} BalancedUnfolds(raws: seq<RawParam>, ann: Annotation, st: ScanState, owed: bool)
    requires raws != []
    ensures var next := Advance(raws[0], ann, st);
            Balanced(raws, ann, st, owed) <==>
            match Classified(raws[0], ann, st)
            case None => owed && DeclaredSlot(raws[0].cType) == Scalar(Usize) && Balanced(raws[1..], ann, next, false)
            case Some(kind) => !owed && ReadRight(raws[0], ann) && Balanced(raws[1..], ann, next, BringsLength(kind))
  {
    hide Classified, Advance, DeclaredSlot, BringsLength, ReadRight;
  }

  lemma {:induction false} WithDueIs(owed: bool, slots: seq<Placed>)
    ensures WithDue(owed, slots) == if owed then [Placed(None, Scalar(Usize))] + slots else slots
  {
  }

  lemma {:induction false} SuitsIs(raw: RawParam, at: nat)
    ensures forall p :: Suits(p, raw, at) <==>
            p.slot == DeclaredSlot(raw.cType) && (p.owner.Some? ==> p.owner.value == at)
  {
  }

  lemma {:induction false} MatchesStart(slots: seq<Placed>, raws: seq<RawParam>, at: nat)
    requires if slots == [] then raws != [] else slots[0].owner.Some? && slots[0].owner.value != at
    ensures !Matches(slots, raws, at)
  {
    assert slots != [] && raws != [] ==> !Suits(slots[0], raws[0], at + 0);
  }

  // ------------------------------------------------------------- slots alone

  predicate OnlyPointersAreArrays(raws: seq<RawParam>, ann: Annotation) {
    forall r <- raws :: IsArray(r, ann) ==> EndsWithStar(r.cType)
  }

  /** A parameter that brings a length is declared a pointer. */
  lemma {:induction false} PointerStep(raws: seq<RawParam>, ann: Annotation, st: ScanState)
    requires raws != [] && OnlyPointersAreArrays(raws, ann)
    ensures OnlyPointersAreArrays(raws[1..], ann)
    ensures Classified(raws[0], ann, st).Some? && BringsLength(Classified(raws[0], ann, st).value) ==>
              ReadRight(raws[0], ann) && DeclaredSlot(raws[0].cType) == Address
  {
    assert raws[0] in raws && forall r <- raws[1..] :: r in raws;
    PlainReading(raws[0].cType);
    if Classified(raws[0], ann, st).Some? {
      ClassifiedSlots(raws[0], ann, st);
    }
    assert EndsWithStar("void**");
    hide ClassifyCParam, Classified, DeclaredSlot, IsArray, ScalarType, SlotsOf;
  }

  /** One kept parameter takes at most one of the missing slots. */
  lemma {:induction false} StillMissing(own: seq<AbiSlot>, rest: seq<AbiSlot>, missing: seq<AbiSlot>, declared: AbiSlot,
          decls: seq<AbiSlot>)
    requires missing != [] && own + rest == missing + ([declared] + decls)
    requires |own| == 1 || (own == [declared, Scalar(Usize)] && declared != Scalar(Usize))
    ensures var left := (missing + [declared])[|own|..]; left != [] && rest == left + decls
  {
    var all := missing + [declared];
    assert own + rest == all + decls;
    assert (own + rest)[|own|..] == rest;
    assert (all + decls)[0] == all[0];
    if |own| == 2 {
      assert (own + rest)[1] == Scalar(Usize) && (all + decls)[1] == all[1];
    }
    assert (all + decls)[|own|..] == all[|own|..] + decls;
  }

  /** The emitted slots never lag behind: whatever was absorbed too much stays missing. */
  lemma {:induction false} NothingCatchesUp(raws: seq<RawParam>, ann: Annotation, st: ScanState, missing: seq<AbiSlot>)
    requires missing != [] && OnlyPointersAreArrays(raws, ann)
    ensures Emitted(raws, ann, st) != missing + DeclaredSlots(raws)
  {
    if raws != [] && Emitted(raws, ann, st) == missing + DeclaredSlots(raws) {
      EmittedStep(raws, ann, st);
      PointerStep(raws, ann, st);
      hide *;
      var next := Advance(raws[0], ann, st);
      var rest, decls := Emitted(raws[1..], ann, next), DeclaredSlots(raws[1..]);
      var declared := DeclaredSlot(raws[0].cType);
      var all := missing + [declared];
      match Classified(raws[0], ann, st)
      case None =>
        assert missing + ([declared] + decls) == all + decls;
        NothingCatchesUp(raws[1..], ann, next, all);
      case Some(kind) =>
        var first := Abi(SlotsOf(kind)[0]);
        var own := [first] + WithLength(BringsLength(kind), []);
        LengthBehind(first, BringsLength(kind), rest);
        LengthIs(BringsLength(kind));
        StillMissing(own, rest, missing, declared, decls);
        NothingCatchesUp(raws[1..], ann, next, all[|own|..]);
    }
  }

  lemma {:induction false} LengthIs(owed: bool)
    ensures WithLength(owed, []) == if owed then [Scalar(Usize)] else []
  {
  }

  /** A `size_t` that is kept is a scalar, met before any pointer list, unless it is
      qualified: then it is taken for an i32. */
  lemma {:induction false} KeptSize(raws: seq<RawParam>, ann: Annotation, st: ScanState)
    requires raws != [] && Classified(raws[0], ann, st).Some? && OnlyPointersAreArrays(raws, ann)
    requires DeclaredSlot(raws[0].cType) == Scalar(Usize)
    ensures var kind, next := Classified(raws[0], ann, st).value, Advance(raws[0], ann, st);
            && (kind == Primitive(I32) || (kind == Primitive(Usize) && !(next.seen && ann.variadic)))
            && next.last == Some(Param(raws[0].name, kind))
  {
    var raw := raws[0];
    assert raw in raws;
    PlainReading(raw.cType);
    assert !IsArray(raw, ann) && !EndsWithStar(raw.cType) && EndsWithStar("void**");
    TableIsUsed(raw, ann, st.seen && ann.variadic);
    assert ScalarType(raw.cType) == Some(Usize) <==> IsSize(raw.cType);
    assert ClassifyCParam(raw, ann, true) == None <== IsSize(raw.cType);
    hide ClassifyCParam, ScalarType, DeclaredSlot, EndsWithStar, IsSize;
  }

  /** Behind a kept scalar an int is kept, as an i32. */
  lemma {:induction false} KeptInt(raws: seq<RawParam>, ann: Annotation, st: ScanState)
    requires raws != [] && OnlyPointersAreArrays(raws, ann) && NoArrayLast(st)
    requires DeclaredSlot(raws[0].cType) == Scalar(I32)
    ensures Classified(raws[0], ann, st) == Some(Primitive(I32))
    ensures Advance(raws[0], ann, st).last == Some(Param(raws[0].name, Primitive(I32)))
  {
    var raw := raws[0];
    assert raw in raws;
    PlainReading(raw.cType);
    assert !IsArray(raw, ann) && !EndsWithStar(raw.cType);
    assert IsSize(raw.cType) ==> ScalarType(raw.cType) == Some(Usize);
    assert ClassifyCParam(raw, ann, st.seen && ann.variadic).Some?;
    TableIsUsed(raw, ann, st.seen && ann.variadic);
    hide ClassifyCParam, ScalarType, DeclaredSlot, EndsWithStar, IsSize;
  }

  predicate NoArrayLast(st: ScanState) {
    st.last.Some? ==> !st.last.value.kind.ArrayPtr? && !st.last.value.kind.MutArrayPtr?
  }

  /** A slot nobody asked for is never made good again. */
  lemma {:induction false} ExtraSlotStays(raws: seq<RawParam>, ann: Annotation, st: ScanState, extra: PrimKind)
    requires OnlyPointersAreArrays(raws, ann) && NoArrayLast(st)
    requires extra == I32 || (extra == Usize && !(st.seen && ann.variadic))
    ensures [Scalar(extra)] + Emitted(raws, ann, st) != DeclaredSlots(raws)
  {
    if raws != [] && [Scalar(extra)] + Emitted(raws, ann, st) == DeclaredSlots(raws) {
      EmittedStep(raws, ann, st);
      PointerStep(raws, ann, st);
      var next := Advance(raws[0], ann, st);
      var rest, decls := Emitted(raws[1..], ann, next), DeclaredSlots(raws[1..]);
      ConsIsInjective(Scalar(extra), Emitted(raws, ann, st), DeclaredSlot(raws[0].cType), decls);
      if extra == I32 {
        KeptInt(raws, ann, st);
      } else {
        StillKept(raws, ann, st);
        KeptSize(raws, ann, st);
      }
      hide ClassifyCParam, Classified, Advance, Emitted, DeclaredSlot, DeclaredSlots, OnlyPointersAreArrays;
      var kind := Classified(raws[0], ann, st).value;
      assert Emitted(raws, ann, st) == [Scalar(kind.prim)] + rest;
      ExtraSlotStays(raws[1..], ann, next, kind.prim);
    }
  }

  lemma {:induction false} StillKept(raws: seq<RawParam>, ann: Annotation, st: ScanState)
    requires raws != [] && NoArrayLast(st) && !(st.seen && ann.variadic)
    ensures Classified(raws[0], ann, st).Some?
  {
  }

  lemma {:induction false} BalancedMeans(raws: seq<RawParam>, ann: Annotation, st: ScanState, owed: bool)
    requires OnlyPointersAreArrays(raws, ann)
    ensures Balanced(raws, ann, st, owed) <==> WithLength(owed, Emitted(raws, ann, st)) == DeclaredSlots(raws)
  {
    if raws == [] {
      assert Emitted(raws, ann, st) == [] && DeclaredSlots(raws) == [];
    } else {
      BalancedUnfolds(raws, ann, st, owed);
      EmittedStep(raws, ann, st);
      PointerStep(raws, ann, st);
      WithLengthIs(owed, Emitted(raws, ann, st));
      var next := Advance(raws[0], ann, st);
      var rest, decls := Emitted(raws[1..], ann, next), DeclaredSlots(raws[1..]);
      var declared := DeclaredSlot(raws[0].cType);
      hide *;
      match Classified(raws[0], ann, st)
      case None =>
        if owed {
          BalancedMeans(raws[1..], ann, next, false);
          WithLengthIs(false, rest);
          ConsIsInjective(Scalar(Usize), rest, declared, decls);
        } else {
          NothingCatchesUp(raws[1..], ann, next, [declared]);
        }
      case Some(kind) =>
        var first, more := Abi(SlotsOf(kind)[0]), WithLength(BringsLength(kind), rest);
        if owed {
          ConsIsInjective(Scalar(Usize), [first] + more, declared, decls);
          if declared == Scalar(Usize) {
            KeptSize(raws, ann, st);
            OwnSlotOnly(raws, ann, st, kind.prim);
            ExtraSlotStays(raws[1..], ann, next, kind.prim);
          }
        } else {
          BalancedMeans(raws[1..], ann, next, BringsLength(kind));
          ConsIsInjective(first, more, declared, decls);
        }
    }
  }

  lemma {:induction false} WithLengthIs(owed: bool, slots: seq<AbiSlot>)
    ensures WithLength(owed, slots) == if owed then [Scalar(Usize)] + slots else slots
  {
  }

  lemma {:induction false} OwnSlotOnly(raws: seq<RawParam>, ann: Annotation, st: ScanState, prim: PrimKind)
    requires raws != [] && Classified(raws[0], ann, st) == Some(Primitive(prim))
    requires Advance(raws[0], ann, st).last == Some(Param(raws[0].name, Primitive(prim)))
    ensures !Primitive(prim).RustOnly() && Abi(SlotsOf(Primitive(prim))[0]) == Scalar(prim)
    ensures !BringsLength(Primitive(prim)) && NoArrayLast(Advance(raws[0], ann, st))
    ensures forall rest :: WithLength(false, rest) == rest
  {
    hide Advance, Classified;
  }

  // ------------------------------------------------- the scan, place by place

  /** What the scan remembers is what can be read off the declaration. */
  ghost predicate Remembers(raws: seq<RawParam>, ann: Annotation, i: nat, st: ScanState)
    requires i <= |raws|
  {
    && (st.seen <==> exists j | 0 <= j < i :: raws[j].cType == "void**")
    && (forall raw: RawParam :: IsCompanionLen(raw, st.last) <==> NamesItsLength(raws, ann, i, raw.name))
  }

  lemma {:induction false} TakenExactly(raws: seq<RawParam>, ann: Annotation, i: nat, st: ScanState)
    requires i < |raws| && Remembers(raws, ann, i, st)
    ensures Classified(raws[i], ann, st).None? <==> TakenForLength(raws, ann, i)
  {
    hide NamesItsLength, IsCompanionLen;
  }

  lemma {:induction false} SeenStep(raws: seq<RawParam>, i: nat)
    requires i < |raws|
    ensures (exists j | 0 <= j < i + 1 :: raws[j].cType == "void**") <==>
            raws[i].cType == "void**" || exists j | 0 <= j < i :: raws[j].cType == "void**"
  {
  }

  lemma {:induction false} NamesBehind(raws: seq<RawParam>, ann: Annotation, i: nat, name: string)
    requires i < |raws|
    ensures NamesItsLength(raws, ann, i + 1, name) <==>
            if LengthPlace(raws, ann, i) then NamesItsLength(raws, ann, i, name)
            else IsArray(raws[i], ann) && name == raws[i].name + "_len"
  {
    hide IsArray;
  }

  /** What a step of the scan does to its memory. */
  lemma {:induction false} LastStep(raw: RawParam, ann: Annotation, st: ScanState)
    ensures var next := Advance(raw, ann, st);
            match Classified(raw, ann, st)
            case None => next.last == st.last
            case Some(kind) =>
              && next.seen == (st.seen || raw.cType == "void**")
              && forall other: RawParam :: IsCompanionLen(other, next.last) <==>
                                           IsArray(raw, ann) && other.name == raw.name + "_len"
    ensures Classified(raw, ann, st).None? && raw.cType != "void**" ==> Advance(raw, ann, st).seen == st.seen
  {
    if Classified(raw, ann, st).Some? {
      ClassifiedSlots(raw, ann, st);
      var kind := Classified(raw, ann, st).value;
      assert kind.ArrayPtr? || kind.MutArrayPtr? <==> IsArray(raw, ann);
    }
    hide DeclaredSlot, ScalarType, ElementType;
  }

  lemma {:induction false} RemembersStep(raws: seq<RawParam>, ann: Annotation, i: nat, st: ScanState)
    requires i < |raws| && Remembers(raws, ann, i, st) && DeclaredWell(raws, ann, i)
    ensures Remembers(raws, ann, i + 1, Advance(raws[i], ann, st))
  {
    PlainReading("void**");
    assert DeclaredSlot("void**") == Address by { assert EndsWithStar("void**"); }
    hide Classified, Advance, NamesItsLength, IsCompanionLen, DeclaredSlot, LengthPlace, ReadRight, IsArray,
         TakenForLength;
    TakenExactly(raws, ann, i, st);
    SeenStep(raws, i);
    LastStep(raws[i], ann, st);
    forall raw: RawParam
      ensures IsCompanionLen(raw, Advance(raws[i], ann, st).last) <==> NamesItsLength(raws, ann, i + 1, raw.name)
    {
      NamesBehind(raws, ann, i, raw.name);
    }
  }

  lemma {:induction false} BalancedIsDeclaredWell(raws: seq<RawParam>, ann: Annotation, i: nat, st: ScanState)
    requires i <= |raws| && Remembers(raws, ann, i, st)
    ensures Balanced(raws[i..], ann, st, LengthPlace(raws, ann, i)) <==>
            (forall k | i <= k < |raws| :: DeclaredWell(raws, ann, k)) && !LengthPlace(raws, ann, |raws|)
    decreases |raws| - i
  {
    if i < |raws| {
      assert raws[i..][0] == raws[i] && raws[i..][1..] == raws[i + 1..];
      PlaceStep(raws, ann, i);
      hide ClassifyCParam, Advance, Classified, TakenForLength, ReadRight, IsArray, BringsLength, LengthPlace,
           Remembers, DeclaredSlot;
      TakenExactly(raws, ann, i, st);
      if DeclaredWell(raws, ann, i) {
        RemembersStep(raws, ann, i, st);
        BalancedIsDeclaredWell(raws, ann, i + 1, Advance(raws[i], ann, st));
        if Classified(raws[i], ann, st).Some? {
          ClassifiedSlots(raws[i], ann, st);
        }
      }
    } else {
      assert raws[i..] == [];
    }
  }

  lemma {:induction false} PlaceStep(raws: seq<RawParam>, ann: Annotation, i: nat)
    requires i < |raws|
    ensures LengthPlace(raws, ann, i + 1) <==>
            !LengthPlace(raws, ann, i) && (IsArray(raws[i], ann) || raws[i].cType == "void**")
  {
    hide IsArray;
  }

  lemma {:induction false} WellMeansBalanced(raws: seq<RawParam>, ann: Annotation)
    ensures WellDeclared(raws, ann) <==> Balanced(raws, ann, START, false)
  {
    assert raws[0..] == raws && !LengthPlace(raws, ann, 0);
    BalancedIsDeclaredWell(raws, ann, 0, START);
    hide DeclaredWell, Balanced, LengthPlace;
  }

  // ------------------------------------------------------------ main results

  /** The emitted type has one slot per declared parameter, of that parameter's own type
      and in its own place. */
  ghost predicate InPlace(raws: seq<RawParam>, ann: Annotation) {
    Emitted(raws, ann, START) == DeclaredSlots(raws) && AtHome(Owners(raws, ann, START, 0), 0)
  }

  /** The emitted `extern "C"` type is the declared one, parameter by parameter, if and
      only if the declaration is well declared; where only pointers are annotated as
      arrays, equal slot lists are enough to tell. */
  lemma {:induction false} SymTypeIsTheDeclaration(raws: seq<RawParam>, ann: Annotation)
    ensures InPlace(raws, ann) <==> WellDeclared(raws, ann)
    ensures OnlyPointersAreArrays(raws, ann) ==>
              (Emitted(raws, ann, START) == DeclaredSlots(raws) <==> WellDeclared(raws, ann))
  {
    var e := Emitted(raws, ann, START);
    PlacedAreEmitted(raws, ann, START, 0);
    var slots := PlacedSlots(raws, ann, START, 0);
    assert InPlace(raws, ann) <==> Matches(slots, raws, 0) by { hide Emitted, Owners, PlacedSlots; }
    WellMeansBalanced(raws, ann);
    BalancedIsInPlace(raws, ann, START, false, 0);
    if OnlyPointersAreArrays(raws, ann) {
      BalancedMeans(raws, ann, START, false);
    }
  }

  lemma {:induction false} ByteIsNarrow()
    ensures DeclaredSlot("uint8_t") == Scalar(U8) && !KnownType("uint8_t")
  {
    OneWord("uint8_t");
    hide Unqualified;
    assert ScalarType("uint8_t") == None;
    hide ScalarType;
    assert CScalar("uint8_t") == Some(U8);
    hide CScalar;
  }

  lemma {:induction false} LongIsUnknown()
    ensures DeclaredSlot("long") == ByValue("long") && !KnownType("long")
  {
    OneWord("long");
    hide Unqualified;
    assert ScalarType("long") == None;
    hide ScalarType;
    assert CScalar("long") == None;
    hide CScalar;
  }

  lemma {:induction false} ConstInFront(t: string)
    ensures Unqualified("const " + t) == Unqualified(t)
  {
    assert ("const " + t)[6..] == t && "const " <= "const " + t;
  }

  /** What stands in front of ` const` is a qualifier only if it is one word of its own. */
  lemma {:induction false} QualifierThenConst(t: string)
    ensures "const " <= t + " const" ==> ' ' in t || t == "const"
    ensures "volatile " <= t + " const" ==> ' ' in t || t == "volatile"
  {
    var u := t + " const";
    assert u[|t|] == ' ' && u[..|t|] == t;
    if |t| > 5 {
      assert u[5] == t[5];
    }
    if |t| > 8 {
      assert u[8] == t[8];
    }
    assert |t| == 5 && "const " <= u ==> u[..5] == "const";
    assert |t| == 8 && "volatile " <= u ==> u[..8] == "volatile";
  }

  lemma {:induction false} ConstBehind(t: string)
    requires ' ' !in t && '*' !in t && t != "" && t != "const" && t != "volatile"
    ensures Unqualified(t + " const") == t
  {
    var u := t + " const";
    QualifierThenConst(t);
    OneWord(t);
    assert u[|u| - 6..] == " const" && u[..|u| - 6] == t;
  }

  /** A `const` type of one word is read right only if it is a 32-bit int. */
  lemma {:induction false} QualifiedTypes(t: string)
    requires ' ' !in t && '*' !in t && t != "" && t != "const" && t != "volatile"
    ensures DeclaredSlot("const " + t) == DeclaredSlot(t) == DeclaredSlot(t + " const")
    ensures KnownType("const " + t) <==> DeclaredSlot(t) == Scalar(I32)
    ensures KnownType(t + " const") <==> DeclaredSlot(t) == Scalar(I32)
  {
    ConstInFront(t);
    ConstBehind(t);
    OneWord(t);
    var front, behind := "const " + t, t + " const";
    assert front[5] == ' ' && front[0] == 'c' && behind[|t|] == ' ' && behind[|t| + 4] == 's';
    assert "unsigned int"[0] == 'u' && "unsigned int"[|"unsigned int"| - 2] == 'n';
    assert behind[|behind| - 1] == 't' && front[|front| - 1] == (if t == [] then ' ' else t[|t| - 1]);
    if ScalarType(front).Some? {
      TableWords(front);
    }
    if ScalarType(behind).Some? {
      TableWords(behind);
    }
    hide Unqualified, CScalar, ScalarType;
  }

  /** A type the converter does not know is declared an i32. */
  lemma {:induction false} UnknownTypeIsMisread(ann: Annotation)
    requires !ann.variadic && ann.arrayParams == [] && ann.mutArrayParams == []
    ensures var raws := [RawParam("x", "uint8_t")];
            KeptParams(raws, ann, START) == [Param("x", Primitive(I32))] && !WellDeclared(raws, ann) &&
              !InPlace(raws, ann)
  {
    var raws := [RawParam("x", "uint8_t")];
    assert raws[1..] == [];
    assert Classified(raws[0], ann, START) == Some(Primitive(I32));
    assert !LengthPlace(raws, ann, 0) && !IsArray(raws[0], ann);
    ByteIsNarrow();
    hide Classified, KnownType, DeclaredSlot, LengthPlace, IsArray, InPlace;
    assert !DeclaredWell(raws, ann, 0);
    SymTypeIsTheDeclaration(raws, ann);
  }

  // ------------------------------------------------------------------ the result

  /** The result's slot in the emitted type. */
  function EmittedReturn(ret: CmRet): Option<AbiSlot> {
    if ret.Void? then None
    else if ret.ReturnsPrimitive? then Some(Scalar(ret.prim))
    else Some(Address)
  }

  function DeclaredReturn(t: string): Option<AbiSlot> {
    if Unqualified(t) == "void" then None else Some(DeclaredSlot(t))
  }

  lemma {:induction false} ReturnBranches(t: string, ann: Annotation)
    ensures EmittedReturn(ClassifyCReturn(t, ann)) ==
            if t == "void" then None
            else if EndsWithStar(t) then Some(Address)
            else if ScalarType(t).Some? then Some(Scalar(ScalarType(t).value))
            else Some(Scalar(I32))
  {
    hide ElementType;
  }

  /** The result is loaded at its declared type if and only if that is `void` without
      qualifiers or a type the converter knows. */
  lemma {:induction false} ReturnIsTheDeclaration(t: string, ann: Annotation)
    ensures EmittedReturn(ClassifyCReturn(t, ann)) == DeclaredReturn(t) <==> t == "void" || KnownType(t)
  {
    ReturnBranches(t, ann);
    PlainReading(t);
    OneWord("void");
    if Unqualified(t) == "void" {
      VoidIsNoSlot(t);
    }
    hide ClassifyCReturn, EmittedReturn, DeclaredSlot, ScalarType, EndsWithStar, Unqualified;
  }

  lemma {:induction false} VoidIsNoSlot(t: string)
    requires Unqualified(t) == "void"
    ensures DeclaredSlot(t) == ByValue("void")
  {
    hide Unqualified;
  }

  /** `uint8_t f()` and `long f()` are loaded as returning an i32. */
  lemma {:induction false} ResultIsMisread(ann: Annotation)
    ensures ClassifyCReturn("uint8_t", ann) == ClassifyCReturn("long", ann) == ReturnsPrimitive(I32)
    ensures EmittedReturn(ClassifyCReturn("uint8_t", ann)) != DeclaredReturn("uint8_t")
    ensures EmittedReturn(ClassifyCReturn("long", ann)) != DeclaredReturn("long")
  {
    ByteIsNarrow();
    LongIsUnknown();
    ReturnIsTheDeclaration("uint8_t", ann);
    ReturnIsTheDeclaration("long", ann);
    assert "uint8_t" != "void" && "long" != "void";
    hide DeclaredSlot, DeclaredReturn, EmittedReturn, KnownType;
  }

  lemma {:induction false} KeptFrom(raws: seq<RawParam>, i: nat, ann: Annotation, st: ScanState)
    requires i < |raws|
    ensures var more := KeptParams(raws[i + 1..], ann, Advance(raws[i], ann, st));
            KeptParams(raws[i..], ann, st) ==
            match Classified(raws[i], ann, st) case Some(kind) => [Param(raws[i].name, kind)] + more case None => more
  {
    assert raws[i..][0] == raws[i] && raws[i..][1..] == raws[i + 1..];
    hide ClassifyCParam, Advance;
  }

  const MISANNOTATED := Annotation(true, None, None, ["a", "b"], [])

  const MISALIGNED: seq<RawParam> :=
    [RawParam("h", "void**"), RawParam("n", "size_t"), RawParam("a", "float*"), RawParam("b", "size_t"),
     RawParam("b_len", "float*"), RawParam("m", "size_t")]

  lemma {:induction false} MisalignedScan(elemA: string, elemB: string)
    requires elemA == ElementType("float*") && elemB == ElementType("size_t")
    ensures var ann, raws := MISANNOTATED, MISALIGNED;
            var s1 := ScanState(Some(Param(raws[0].name, SliceCmTypes)), true);
            var s2 := s1.(last := Some(Param(raws[2].name, ArrayPtr(elemA, "a_len"))));
            var s3 := s1.(last := Some(Param(raws[3].name, ArrayPtr(elemB, "b_len"))));
            && Classified(raws[0], ann, START) == Some(SliceCmTypes) && Advance(raws[0], ann, START) == s1
            && Classified(raws[1], ann, s1) == None && Advance(raws[1], ann, s1) == s1
            && Classified(raws[2], ann, s1) == Some(ArrayPtr(elemA, "a_len")) && Advance(raws[2], ann, s1) == s2
            && Classified(raws[3], ann, s2) == Some(ArrayPtr(elemB, "b_len")) && Advance(raws[3], ann, s2) == s3
            && Classified(raws[4], ann, s3) == None && Advance(raws[4], ann, s3) == s3
            && Classified(raws[5], ann, s3) == None
  {
    hide ElementType;
    assert "a" + "_len" == "a_len" && "b" + "_len" == "b_len";
    assert MISANNOTATED.arrayParams[0] == "a" && MISANNOTATED.arrayParams[1] == "b";
  }

  /** Slots can agree by accident: with a `size_t` annotated as an array, `b`'s address
      is passed where `b_len` was declared. */
  lemma {:induction false} SlotsAgreeByAccident()
    ensures Emitted(MISALIGNED, MISANNOTATED, START) == DeclaredSlots(MISALIGNED)
    ensures !WellDeclared(MISALIGNED, MISANNOTATED)
  {
    var ps := MisalignedKept();
    MisalignedSlots(ps);
    MisalignedIsNotWell();
    hide KeptParams, DeclaredSlots, WellDeclared, CSlots, AbiOf;
  }

  lemma {:induction false} MisalignedIsNotWell()
    ensures !WellDeclared(MISALIGNED, MISANNOTATED)
  {
    assert MISANNOTATED.arrayParams[1] == "b" && IsArray(MISALIGNED[3], MISANNOTATED);
    assert !ReadRight(MISALIGNED[3], MISANNOTATED);
    assert MISALIGNED[2].name == "a" && MISANNOTATED.arrayParams[0] == "a";
    hide IsArray, ReadRight, ListSeen;
    assert !DeclaredWell(MISALIGNED, MISANNOTATED, 3);
  }

  lemma {:induction false} MisalignedSlots(ps: seq<Param>)
    requires |ps| == 3 && ps[0].kind == SliceCmTypes && ps[1].kind.ArrayPtr? && ps[2].kind.ArrayPtr?
    ensures forall p <- ps :: !p.kind.RustOnly()
    ensures AbiOf(CSlots(ps)) == DeclaredSlots(MISALIGNED)
  {
    PlainReading("void**");
    PlainReading("size_t");
    PlainReading("float*");
    hide DeclaredSlot;
    assert ps == [ps[0]] + ([ps[1]] + [ps[2]]);
    assert ps[1..] == [ps[1]] + [ps[2]] && ps[1..][1..] == [ps[2]] && [ps[2]][1..] == [];
    var usize := SlotPrim(Usize);
    assert CSlots([ps[2]]) == SlotsOf(ps[2].kind) + CSlots([]);
    assert CSlots([ps[2]]) == [SlotConstPtr, usize];
    assert CSlots(ps[1..]) == SlotsOf(ps[1].kind) + CSlots(ps[1..][1..]);
    assert CSlots(ps[1..]) == [SlotConstPtr, usize, SlotConstPtr, usize];
    assert CSlots(ps) == [SlotPtrArray, usize, SlotConstPtr, usize, SlotConstPtr, usize];
  }

  lemma {:induction false} MisalignedKept() returns (ps: seq<Param>)
    ensures KeptParams(MISALIGNED, MISANNOTATED, START) == ps
    ensures |ps| == 3 && ps[0].kind == SliceCmTypes && ps[1].kind.ArrayPtr? && ps[2].kind.ArrayPtr?
  {
    var ann, raws := MISANNOTATED, MISALIGNED;
    var elemA, elemB := ElementType("float*"), ElementType("size_t");
    MisalignedScan(elemA, elemB);
    var s1 := ScanState(Some(Param(raws[0].name, SliceCmTypes)), true);
    var s2 := s1.(last := Some(Param(raws[2].name, ArrayPtr(elemA, "a_len"))));
    var s3 := s1.(last := Some(Param(raws[3].name, ArrayPtr(elemB, "b_len"))));
    assert KeptParams([], ann, Advance(raws[5], ann, s3)) == [];
    assert |raws| == 6 && raws[6..] == [];
    hide *;
    KeptFrom(raws, 5, ann, s3);
    KeptFrom(raws, 4, ann, s3);
    KeptFrom(raws, 3, ann, s2);
    KeptFrom(raws, 2, ann, s1);
    KeptFrom(raws, 1, ann, s1);
    KeptFrom(raws, 0, ann, START);
    ps := KeptParams(raws, ann, START);
    assert raws[0..] == raws;
  }

  predicate DistinctNames(raws: seq<RawParam>) {
    forall i, j | 0 <= i < j < |raws| :: raws[i].name != raws[j].name
  }

  function NameSet(raws: seq<RawParam>): set<string> {
    set r <- raws :: r.name
  }

  lemma {:induction false} OnlyDeclaredNames(raws: seq<RawParam>, ann: Annotation, st: ScanState)
    ensures forall p <- KeptParams(raws, ann, st) :: p.name in NameSet(raws)
    ensures forall a <- AutoParams(raws, ann, st) :: a in NameSet(raws)
  {
    hide Classified, Advance;
    if raws != [] {
      OnlyDeclaredNames(raws[1..], ann, Advance(raws[0], ann, st));
      assert raws[0] in raws && forall r <- raws[1..] :: r in raws;
    }
  }

  /** With distinct names an absorbed parameter is never also a kept one, and kept
      parameters have distinct names. */
  lemma {:induction false} KeptAndAbsorbedDiffer(raws: seq<RawParam>, ann: Annotation, st: ScanState)
    requires DistinctNames(raws)
    ensures forall p <- KeptParams(raws, ann, st) :: p.name !in AutoParams(raws, ann, st)
    ensures forall i, j | 0 <= i < j < |KeptParams(raws, ann, st)| ::
              KeptParams(raws, ann, st)[i].name != KeptParams(raws, ann, st)[j].name
  {
    hide Classified, Advance;
    if raws != [] {
      var next := Advance(raws[0], ann, st);
      KeptAndAbsorbedDiffer(raws[1..], ann, next);
      OnlyDeclaredNames(raws[1..], ann, next);
      assert raws[0].name !in NameSet(raws[1..]);
      var rest := KeptParams(raws[1..], ann, next);
      assert forall j | 0 <= j < |rest| :: rest[j] in rest;
    }
  }
}
