/** The renderers for Rust entries: the checked wrapper, its unchecked twin, and
    the self-contained (in-process) counterparts of both.  Each renderer is a loop
    that appends to the output; each is proved to emit the body described by
    CheckedBody / UncheckedBody, and those bodies are studied in RustWrappers. */
module RustRenderers {
  import opened Common
  import opened KernelTypes
  import opened WrapperCode

  /** Parameters the wrapper unpacks into a local before the call. */
  predicate Extracted(kind: ParamKind) {
    kind.Primitive? || kind.StrRef? || kind.OwnedString?
  }

  /** Number of parameters in front of the first variadic one. */
  function FixedCount(ps: seq<Param>): (n: nat)
    ensures n <= |ps|
    ensures forall j | 0 <= j < n :: !ps[j].kind.IsVariadic()
    ensures n < |ps| ==> ps[n].kind.IsVariadic()
  {
    if ps == [] || ps[0].kind.IsVariadic() then 0
    else
      var rest := FixedCount(ps[1..]);
      assert forall j | 1 <= j < rest + 1 :: ps[j] == ps[1..][j - 1];
      1 + rest
  }

  function ParamStmts(p: Param, i: nat, access: Access): seq<Stmt> {
    match p.kind
    case Primitive(kind) => [LetScalar(p.name, i, kind.VariantName(), access)]
    case StrRef => [LetOwned(p.name + "_s", i, access), LetAsStr(p.name, p.name + "_s")]
    case OwnedString => [LetOwned(p.name, i, access)]
    case _ => []
  }

  function FixedStmts(ps: seq<Param>, n: nat, access: Access): seq<Stmt>
    requires n <= |ps|
  {
    if n == 0 then [] else FixedStmts(ps, n - 1, access) + ParamStmts(ps[n - 1], n - 1, access)
  }

  function TailStmts(ps: seq<Param>): seq<Stmt> {
    var n := FixedCount(ps);
    if n < |ps| && ps[n].kind.VecCmTypes? then [LetTail(ps[n].name, n)] else []
  }

  function CountAssertion(ps: seq<Param>): seq<Stmt> {
    if FixedCount(ps) > 0 then [AssertArgCount(FixedCount(ps))] else []
  }

  function CallArg(p: Param, i: nat, access: Access): ArgExpr
    requires !p.kind.COnly()
  {
    match p.kind
    case CmTypesRef => ArgAt(i, access)
    case VecCmTypes => BorrowLocal(p.name)
    case SliceCmTypes => ArgsFrom(i, access)
    case _ => Local(p.name)
  }

  /** The call's argument expressions: one per parameter, in order. */
  function CallArgs(ps: seq<Param>, access: Access): seq<ArgExpr>
    requires forall p <- ps :: !p.kind.COnly()
  {
    seq(|ps|, i requires 0 <= i < |ps| => CallArg(ps[i], i, access))
  }

  function WrapOf(r: CmRet): Wrap
    requires !r.COnly()
  {
    match r
    case Void => UnitToNone
    case ReturnsCmTypes => PassThrough
    case ReturnsPrimitive(kind) => WrapVariant(kind.VariantName())
    case ReturnsString => WrapText
  }

  function TyOf(kind: ParamKind): Ty
    requires !kind.COnly()
  {
    match kind
    case CmTypesRef => TRefCm
    case Primitive(prim) => TScalar(prim)
    case StrRef => TStr
    case OwnedString => TString
    case VecCmTypes => TRefVec
    case SliceCmTypes => TSlice
  }

  /** The `fn(..) -> ..` type the symbol is loaded at. */
  function SymType(e: ExportedFn): Sig
    requires RustEntry(e)
  {
    Sig(seq(|e.params|, i requires 0 <= i < |e.params| => TyOf(e.params[i].kind)),
        match e.ret
        case Void => RUnit
        case ReturnsCmTypes => RCmTypes
        case ReturnsPrimitive(kind) => RScalar(kind)
        case ReturnsString => RString)
  }

  function UpperChar(c: char): char {
    if 'a' <= c <= 'z' then c - 'a' + 'A' else c
  }

  function Upper(s: string): string {
    seq(|s|, i requires 0 <= i < |s| => UpperChar(s[i]))
  }

  function SymStaticName(cmName: string): string {
    Upper(cmName) + "_SYM"
  }

  function CheckedBody(e: ExportedFn, callee: Callee): Body
    requires RustEntry(e)
  {
    Body(FixedStmts(e.params, FixedCount(e.params), Checked) + TailStmts(e.params),
         callee, CallArgs(e.params, Checked), WrapOf(e.ret))
  }

  function UncheckedBody(e: ExportedFn, callee: Callee): Body
    requires RustEntry(e)
  {
    Body(CountAssertion(e.params) + FixedStmts(e.params, FixedCount(e.params), Unchecked) + TailStmts(e.params),
         callee, CallArgs(e.params, Unchecked), WrapOf(e.ret))
  }

  function WrapperBody(e: ExportedFn, access: Access, callee: Callee): Body
    requires RustEntry(e)
  {
    if access.Checked? then CheckedBody(e, callee) else UncheckedBody(e, callee)
  }

  // ------------------------------------------------------------- renderers

  method RenderEntryWrapper(e: ExportedFn) returns (b: Body)
    requires RustEntry(e)
    ensures b == CheckedBody(e, CachedStatic(SymStaticName(e.cmName)))
  {
    var stmts := RenderCheckedStmts(e);
    b := Body(stmts, CachedStatic(SymStaticName(e.cmName)), CallArgs(e.params, Checked), WrapOf(e.ret));
  }

  method RenderSelfContainedWrapper(e: ExportedFn) returns (b: Body)
    requires RustEntry(e)
    ensures b == CheckedBody(e, InProcess(e.cmName))
  {
    var stmts := RenderCheckedStmts(e);
    b := Body(stmts, InProcess(e.cmName), CallArgs(e.params, Checked), WrapOf(e.ret));
  }

  method RenderEntryWrapperUnchecked(e: ExportedFn) returns (b: Body)
    requires RustEntry(e)
    ensures b == UncheckedBody(e, CachedStatic(SymStaticName(e.cmName)))
  {
    var stmts := RenderUncheckedStmts(e);
    b := Body(stmts, CachedStatic(SymStaticName(e.cmName)), CallArgs(e.params, Unchecked), WrapOf(e.ret));
  }

  method RenderSelfContainedWrapperUnchecked(e: ExportedFn) returns (b: Body)
    requires RustEntry(e)
    ensures b == UncheckedBody(e, InProcess(e.cmName))
  {
    var stmts := RenderUncheckedStmts(e);
    b := Body(stmts, InProcess(e.cmName), CallArgs(e.params, Unchecked), WrapOf(e.ret));
  }

  /** Extraction up to the first variadic parameter, then the variadic local. */
  method RenderCheckedStmts(e: ExportedFn) returns (out: seq<Stmt>)
    requires RustEntry(e)
    ensures out == CheckedBody(e, InProcess(e.cmName)).stmts
  {
    hide ParamStmts, CallArgs, WrapOf;
    out := [];
    var i := 0;
    while i < |e.params|
      invariant 0 <= i <= FixedCount(e.params)
      invariant out == FixedStmts(e.params, i, Checked)
    {
      if e.params[i].kind.IsVariadic() {
        break;
      }
      out := out + ParamStmts(e.params[i], i, Checked);
      i := i + 1;
    }
    if i < |e.params| && e.params[i].kind.VecCmTypes? {
      out := out + [LetTail(e.params[i].name, i)];
    }
  }

  /** The twin counts first and stops after `take(fixed_params)`. */
  method RenderUncheckedStmts(e: ExportedFn) returns (out: seq<Stmt>)
    requires RustEntry(e)
    ensures out == UncheckedBody(e, InProcess(e.cmName)).stmts
  {
    hide ParamStmts, CallArgs, WrapOf;
    var fixedParams := FixedCount(e.params);
    out := [];
    if fixedParams > 0 {
      out := out + [AssertArgCount(fixedParams)];
    }
    for i := 0 to fixedParams
      invariant out == CountAssertion(e.params) + FixedStmts(e.params, i, Unchecked)
    {
      out := out + ParamStmts(e.params[i], i, Unchecked);
    }
    if fixedParams < |e.params| && e.params[fixedParams].kind.VecCmTypes? {
      out := out + [LetTail(e.params[fixedParams].name, fixedParams)];
    }
  }

  // -------------------------------------------------------------- metadata

  function SpecWord(kind: ParamKind): string
    requires !kind.COnly()
  {
    match kind
    case Primitive(prim) => prim.VariantName()
    case StrRef => "String"
    case OwnedString => "String"
    case CmTypesRef => "*"
    case VecCmTypes => "..."
    case SliceCmTypes => "..."
  }

  /** Required variants per argument slot; None for entries without a twin. */
  function EntryArgspec(e: ExportedFn): Option<seq<string>> {
    if e.lang.C? || exists p <- e.params :: p.kind.COnly() then None
    else Some(seq(|e.params|, i requires 0 <= i < |e.params| => SpecWord(e.params[i].kind)))
  }

  /** The contract of the argspec table, read the way the runtime reads it: a
      trailing "..." is not a slot, "*" accepts anything, any other word is the
      variant the slot must hold. */
  function FixedSlots(spec: seq<string>): (n: nat)
    ensures n <= |spec|
  {
    if |spec| > 0 && spec[|spec| - 1] == "..." then |spec| - 1 else |spec|
  }

  predicate Accepts(spec: seq<string>, args: seq<CmValue>) {
    && FixedSlots(spec) <= |args|
    && forall i | 0 <= i < FixedSlots(spec) :: spec[i] == "*" || args[i].Variant() == spec[i]
  }
}
