/** Values, parameters and entries shared by the wrapper generators, the export
    table and the runtime (the data model of tomii-converter and CmTypes). */
module KernelTypes {
  import opened Common

  /** Scalar kinds that travel as their own CmTypes variant. */
  datatype PrimKind =
    | Bool | I8 | I16 | I32 | I64 | I128
    | U8 | U16 | U32 | U64 | U128
    | F32 | F64 | Usize | Isize | Char
  {
    function VariantName(): string {
      match this
      case Bool => "Bool"
      case I8 => "I8"
      case I16 => "I16"
      case I32 => "I32"
      case I64 => "I64"
      case I128 => "I128"
      case U8 => "U8"
      case U16 => "U16"
      case U32 => "U32"
      case U64 => "U64"
      case U128 => "U128"
      case F32 => "F32"
      case F64 => "F64"
      case Usize => "Usize"
      case Isize => "Isize"
      case Char => "Char"
    }

    /** I128 and U128 payloads live behind an Arc, so they are neither Copy nor
        of the scalar type the kernel declares. */
    predicate IsWide() {
      I128? || U128?
    }
  }

  /** The variant a `CmTypes::{name}` pattern selects, when it is a scalar one. */
  function KindOfVariant(name: string): Option<PrimKind> {
    if name == "Bool" then Some(Bool)
    else if name == "I8" then Some(I8)
    else if name == "I16" then Some(I16)
    else if name == "I32" then Some(I32)
    else if name == "I64" then Some(I64)
    else if name == "I128" then Some(I128)
    else if name == "U8" then Some(U8)
    else if name == "U16" then Some(U16)
    else if name == "U32" then Some(U32)
    else if name == "U64" then Some(U64)
    else if name == "U128" then Some(U128)
    else if name == "F32" then Some(F32)
    else if name == "F64" then Some(F64)
    else if name == "Usize" then Some(Usize)
    else if name == "Isize" then Some(Isize)
    else if name == "Char" then Some(Char)
    else None
  }

  /** What a CmTypes::Any box holds, as far as the wrappers can tell. */
  datatype Boxed =
    | OpaqueHandle(addr: int)
    | VecOf(elem: string, buffer: int, len: nat)
    | OtherBox(tag: int)

  /** Variants no wrapper inspects. */
  datatype PlainVariant =
    | Complex32 | Complex64 | Ref | Res | Dep | Barrier | Init | AnySliced | VecAny | Bytes
  {
    function Name(): string {
      match this
      case Complex32 => "Complex32"
      case Complex64 => "Complex64"
      case Ref => "Ref"
      case Res => "Res"
      case Dep => "Dep"
      case Barrier => "Barrier"
      case Init => "Init"
      case AnySliced => "AnySliced"
      case VecAny => "VecAny"
      case Bytes => "Bytes"
    }
  }

  datatype CmValue =
    | Prim(kind: PrimKind, bits: int)
    | Text(text: string)
    | VecCmt(items: seq<CmValue>)
    | Any(held: bool, content: Boxed)
    | NoneValue
    | Plain(variant: PlainVariant, payload: int)
  {
    /** The discriminant name the runtime reports for a value. */
    function Variant(): string {
      match this
      case Prim(kind, _) => kind.VariantName()
      case Text(_) => "String"
      case VecCmt(_) => "VecCmt"
      case Any(held, _) => if held then "AnyHeld" else "Any"
      case NoneValue => "None"
      case Plain(variant, _) => variant.Name()
    }
  }

  datatype ParamKind =
    | CmTypesRef
    | Primitive(prim: PrimKind)
    | StrRef
    | OwnedString
    | VecCmTypes
    | SliceCmTypes
    | OpaquePtr
    | ArrayPtr(elem: string, lenParam: string)
    | MutArrayPtr(elem: string, lenParam: string)
  {
    predicate IsVariadic() {
      VecCmTypes? || SliceCmTypes?
    }

    predicate COnly() {
      OpaquePtr? || ArrayPtr? || MutArrayPtr?
    }

    predicate RustOnly() {
      CmTypesRef? || OwnedString? || VecCmTypes?
    }
  }

  datatype Param = Param(name: string, kind: ParamKind)

  datatype CmRet =
    | Void
    | ReturnsCmTypes
    | ReturnsPrimitive(prim: PrimKind)
    | ReturnsString
    | ReturnsOpaque
    | AllocatedArray(elem: string, lenFrom: string, freeFn: Option<string>)
    | AllocatedString(freeFn: Option<string>)
  {
    predicate COnly() {
      ReturnsOpaque? || AllocatedArray? || AllocatedString?
    }

    predicate RustOnly() {
      ReturnsCmTypes? || ReturnsString?
    }
  }

  datatype SourceLang = Rust | C

  datatype ExportedFn = ExportedFn(
    cmName: string,
    registryKey: string,
    params: seq<Param>,
    ret: CmRet,
    retVariantHint: Option<string>,
    lang: SourceLang,
    autoParams: seq<string>,
    hasBulkCm: bool)

  /** What the collectors guarantee of a Rust entry; the renderers are
      `unreachable!` outside it. */
  predicate RustEntry(e: ExportedFn) {
    && e.lang.Rust?
    && (forall p <- e.params :: !p.kind.COnly())
    && !e.ret.COnly()
  }

  /** What the collectors guarantee of a C entry. */
  predicate CEntry(e: ExportedFn) {
    && e.lang.C?
    && (forall p <- e.params :: !p.kind.RustOnly())
    && !e.ret.RustOnly()
  }

  lemma {:induction false} KindOfItsName(kind: PrimKind)
    ensures KindOfVariant(kind.VariantName()) == Some(kind)
  {
  }

  lemma {:induction false} NameOfItsKind(name: string)
    requires KindOfVariant(name).Some?
    ensures KindOfVariant(name).value.VariantName() == name
  {
  }

  lemma {:induction false} OtherNamesAreNoKind(variant: PlainVariant)
    ensures KindOfVariant(variant.Name()) == None
  {
  }

  lemma {:induction false} VariantNameIsInjective(a: PrimKind, b: PrimKind)
    ensures a.VariantName() == b.VariantName() <==> a == b
  {
    KindOfItsName(a);
    KindOfItsName(b);
    hide KindOfVariant, PrimKind.VariantName;
  }

  /** A scalar pattern matches exactly the values of its own kind. */
  lemma {:induction false} VariantSelectsKind(v: CmValue, kind: PrimKind)
    ensures v.Variant() == kind.VariantName() <==> v.Prim? && v.kind == kind
  {
    KindOfItsName(kind);
    hide PrimKind.VariantName;
    if v.Prim? {
      VariantNameIsInjective(v.kind, kind);
    } else if v.Plain? {
      OtherNamesAreNoKind(v.variant);
    } else {
      assert KindOfVariant(v.Variant()) == None;
    }
  }

  lemma {:induction false} StringVariantSelectsText(v: CmValue)
    ensures v.Variant() == "String" <==> v.Text?
  {
    if v.Prim? {
      assert KindOfVariant(v.Variant()) == Some(v.kind);
    }
  }
}
