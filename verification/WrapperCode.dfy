/** The fragment of Rust that the Rust-entry renderers emit, with a type checker
    (does the emitted wrapper compile?) and an interpreter (what does it do on an
    argument list?).  `args` is an ordinary variable here, so a parameter that is
    called `args`, or like a temporary, really shadows it. */
module WrapperCode {
  import opened Common
  import opened KernelTypes

  /** `args[i]` or `args.get_unchecked(i)`. */
  datatype Access = Checked | Unchecked

  datatype Stmt =
    | AssertArgCount(count: nat)                                             // debug_assert!(args.len() >= count)
    | LetScalar(name: string, idx: nat, variant: string, access: Access)     // match args[idx] { variant(x) => x, .. }
    | LetOwned(name: string, idx: nat, access: Access)                       // match args[idx] { String(x) => .. }
    | LetAsStr(name: string, source: string)                                 // let name = source.as_str()
    | LetTail(name: string, idx: nat)                                        // args[idx..] collected into a Vec

  datatype ArgExpr =
    | ArgAt(idx: nat, access: Access)
    | Local(name: string)
    | BorrowLocal(name: string)
    | ArgsFrom(idx: nat, access: Access)

  /** How the wrapper turns the kernel's result into a CmTypes. */
  datatype Wrap = UnitToNone | PassThrough | WrapVariant(variant: string) | WrapText

  /** A `static` of the module, or a function of the same crate. */
  datatype Callee = CachedStatic(static_: string) | InProcess(fn: string) {
    function Name(): string {
      match this
      case CachedStatic(name) => name
      case InProcess(name) => name
    }
  }

  datatype Body = Body(stmts: seq<Stmt>, callee: Callee, args: seq<ArgExpr>, wrap: Wrap)

  datatype Ty = TScalar(kind: PrimKind) | TString | TStr | TVec | TRefCm | TRefVec | TSlice
  datatype RetTy = RUnit | RCmTypes | RScalar(kind: PrimKind) | RString
  datatype Sig = Sig(params: seq<Ty>, ret: RetTy)

  /** What a callee name stands for: the linked symbol and the type it is called at. */
  datatype Target = Target(symbol: string, sig: Sig)
  type Scope = map<Callee, Target>

  /** The local a statement introduces, if any. */
  function BoundBy(s: Stmt): set<string> {
    if s.AssertArgCount? then {} else {s.name}
  }

  function Bound(ss: seq<Stmt>): set<string> {
    if ss == [] then {} else BoundBy(ss[0]) + Bound(ss[1..])
  }

  // ---------------------------------------------------------------- typing

  type Ctx = map<string, Ty>

  function CheckStmt(s: Stmt, ctx: Ctx): Option<Ctx> {
    match s
    case AssertArgCount(_) =>
      if SliceInScope(ctx) then Some(ctx) else None
    case LetScalar(name, _, variant, _) =>
      // an Arc payload can neither be moved out of `args` nor copied
      if SliceInScope(ctx) && KindOfVariant(variant).Some? && !KindOfVariant(variant).value.IsWide()
      then Some(ctx[name := TScalar(KindOfVariant(variant).value)])
      else None
    case LetOwned(name, _, _) =>
      if SliceInScope(ctx) then Some(ctx[name := TString]) else None
    case LetAsStr(name, source) =>
      if source in ctx && ctx[source].TString? then Some(ctx[name := TStr]) else None
    case LetTail(name, _) =>
      if SliceInScope(ctx) then Some(ctx[name := TVec]) else None
  }

  predicate SliceInScope(ctx: Ctx) {
    "args" in ctx && ctx["args"].TSlice?
  }

  function CheckStmts(ss: seq<Stmt>, ctx: Ctx): Option<Ctx> {
    if ss == [] then Some(ctx)
    else
      match CheckStmt(ss[0], ctx)
      case None => None
      case Some(next) => CheckStmts(ss[1..], next)
  }

  function TypeOf(e: ArgExpr, ctx: Ctx): Option<Ty> {
    match e
    case ArgAt(_, _) => if SliceInScope(ctx) then Some(TRefCm) else None
    case Local(name) => if name in ctx then Some(ctx[name]) else None
    case BorrowLocal(name) => if name in ctx && ctx[name].TVec? then Some(TRefVec) else None
    case ArgsFrom(_, _) => if SliceInScope(ctx) then Some(TSlice) else None
  }

  predicate WrapsAt(w: Wrap, r: RetTy) {
    match r
    case RUnit => w == UnitToNone
    case RCmTypes => w == PassThrough
    case RScalar(kind) => w == WrapVariant(kind.VariantName()) && !kind.IsWide()
    case RString => w == WrapText
  }

  const ENTRY_CTX: Ctx := map["args" := TSlice]

  /** A local hides a function of the same name, and may not be called like any
      static of the module at all. */
  predicate NamesResolve(b: Body, scope: Scope, locals: set<string>) {
    && b.callee in scope
    && forall c | c in scope && (c == b.callee || c.CachedStatic?) :: c.Name() !in locals
  }

  /** The wrapper compiles: every name is bound before use and none hides the callee,
      the call passes one expression per parameter of the callee's type, each of the
      declared type, and the result can be wrapped. */
  predicate Compiles(b: Body, scope: Scope) {
    && CheckStmts(b.stmts, ENTRY_CTX).Some?
    && var ctx := CheckStmts(b.stmts, ENTRY_CTX).value;
    && NamesResolve(b, scope, ctx.Keys)
    && var sig := scope[b.callee].sig;
    && |b.args| == |sig.params|
    && (forall k | 0 <= k < |b.args| :: TypeOf(b.args[k], ctx) == Some(sig.params[k]))
    && WrapsAt(b.wrap, sig.ret)
  }

  // ------------------------------------------------------------- execution

  /** Stuck is the outcome of code that would not have compiled. */
  datatype Outcome<+T> = Done(value: T) | Panic | Undefined | Stuck {
    predicate IsFailure() { !Done? }
    function PropagateFailure<U>(): Outcome<U>
      requires IsFailure()
    {
      match this
      case Panic => Panic
      case Undefined => Undefined
      case Stuck => Stuck
    }
    function Extract(): T
      requires !IsFailure()
    {
      value
    }
  }

  datatype Value =
    | VScalar(kind: PrimKind, bits: int)
    | VString(text: string)
    | VStr(text: string)
    | VVec(items: seq<CmValue>)
    | VRefCm(target: CmValue)
    | VRefVec(items: seq<CmValue>)
    | VSlice(items: seq<CmValue>)

  type Env = map<string, Value>

  predicate HasTy(v: Value, t: Ty) {
    match t
    case TScalar(kind) => v.VScalar? && v.kind == kind
    case TString => v.VString?
    case TStr => v.VStr?
    case TVec => v.VVec?
    case TRefCm => v.VRefCm?
    case TRefVec => v.VRefVec?
    case TSlice => v.VSlice?
  }

  function Slot(env: Env, idx: nat, access: Access): Outcome<CmValue> {
    if !("args" in env && env["args"].VSlice?) then Stuck
    else if idx < |env["args"].items| then Done(env["args"].items[idx])
    else if access.Checked? then Panic
    else Undefined
  }

  /** The `_ =>` arm of an extraction: a panic, or `unreachable_unchecked` behind
      a debug assertion. */
  function Mismatch<T>(access: Access, debug: bool): Outcome<T> {
    if access.Checked? || debug then Panic else Undefined
  }

  function ExecStmt(s: Stmt, env: Env, debug: bool): Outcome<Env> {
    match s
    case AssertArgCount(count) =>
      if !("args" in env && env["args"].VSlice?) then Stuck
      else if debug && |env["args"].items| < count then Panic
      else Done(env)
    case LetScalar(name, idx, variant, access) =>
      var v :- Slot(env, idx, access);
      if v.Variant() != variant then Mismatch(access, debug)
      else if v.Prim? && !v.kind.IsWide() then Done(env[name := VScalar(v.kind, v.bits)])
      else Stuck
    case LetOwned(name, idx, access) =>
      var v :- Slot(env, idx, access);
      if v.Text? then Done(env[name := VString(v.text)]) else Mismatch(access, debug)
    case LetAsStr(name, source) =>
      if source in env && env[source].VString? then Done(env[name := VStr(env[source].text)]) else Stuck
    case LetTail(name, idx) =>
      if !("args" in env && env["args"].VSlice?) then Stuck
      else if idx <= |env["args"].items| then Done(env[name := VVec(env["args"].items[idx..])])
      else Panic
  }

  function ExecStmts(ss: seq<Stmt>, env: Env, debug: bool): Outcome<Env> {
    if ss == [] then Done(env)
    else
      var next :- ExecStmt(ss[0], env, debug);
      ExecStmts(ss[1..], next, debug)
  }

  function Eval(e: ArgExpr, env: Env): Outcome<Value> {
    match e
    case ArgAt(idx, access) =>
      var v :- Slot(env, idx, access);
      Done(VRefCm(v))
    case Local(name) => if name in env then Done(env[name]) else Stuck
    case BorrowLocal(name) => if name in env && env[name].VVec? then Done(VRefVec(env[name].items)) else Stuck
    case ArgsFrom(idx, access) =>
      if !("args" in env && env["args"].VSlice?) then Stuck
      else if idx <= |env["args"].items| then Done(VSlice(env["args"].items[idx..]))
      else if access.Checked? then Panic
      else Undefined
  }

  /** Arguments are evaluated left to right; the first failure wins. */
  function EvalAll(es: seq<ArgExpr>, env: Env): Outcome<seq<Value>> {
    if es == [] then Done([])
    else
      var v :- Eval(es[0], env);
      var rest :- EvalAll(es[1..], env);
      Done([v] + rest)
  }

  datatype Invocation = Invocation(symbol: string, values: seq<Value>)

  /** The call a wrapper body makes on an argument list. A local of the callee's name
      is what would be called, and no local is a function. */
  function CallOf(b: Body, scope: Scope, args: seq<CmValue>, debug: bool): Outcome<Invocation> {
    if b.callee !in scope then Stuck
    else
      var env :- ExecStmts(b.stmts, map["args" := VSlice(args)], debug);
      var values :- EvalAll(b.args, env);
      if b.callee.Name() in env then Stuck else Done(Invocation(scope[b.callee].symbol, values))
  }

  /** What a kernel hands back before wrapping. */
  datatype Raw = RawUnit | RawCm(v: CmValue) | RawScalar(kind: PrimKind, bits: int) | RawString(text: string)

  predicate RawHasTy(r: Raw, t: RetTy) {
    match t
    case RUnit => r.RawUnit?
    case RCmTypes => r.RawCm?
    case RScalar(kind) => r.RawScalar? && r.kind == kind
    case RString => r.RawString?
  }

  function Finish(w: Wrap, r: Raw): Outcome<CmValue> {
    match (w, r)
    case (UnitToNone, RawUnit) => Done(NoneValue)
    case (PassThrough, RawCm(v)) => Done(v)
    case (WrapVariant(name), RawScalar(kind, bits)) =>
      if name == kind.VariantName() && !kind.IsWide() then Done(Prim(kind, bits)) else Stuck
    case (WrapText, RawString(text)) => Done(Text(text))
    case _ => Stuck
  }

  type Kernel = Invocation -> Raw

  function Run(b: Body, scope: Scope, kernel: Kernel, args: seq<CmValue>, debug: bool): Outcome<CmValue> {
    var call :- CallOf(b, scope, args, debug);
    Finish(b.wrap, kernel(call))
  }

  lemma {:induction false} RunUnfolds(b: Body, scope: Scope, kernel: Kernel, args: seq<CmValue>, debug: bool)
    ensures Run(b, scope, kernel, args, debug) ==
            match CallOf(b, scope, args, debug)
            case Panic => Panic
            case Undefined => Undefined
            case Stuck => Stuck
            case Done(call) => Finish(b.wrap, kernel(call))
  {
    hide CallOf, Finish;
  }

  /** Every kernel returns what its declared type says. */
  ghost predicate WellTyped(kernel: Kernel, scope: Scope) {
    forall c, inv: Invocation | c in scope && inv.symbol == scope[c].symbol ::
      RawHasTy(kernel(inv), scope[c].sig.ret)
  }

  // ------------------------------------------------- soundness of the checker

  ghost predicate EnvHasTy(env: Env, ctx: Ctx) {
    forall x | x in ctx :: x in env && HasTy(env[x], ctx[x])
  }

  lemma {:induction false} OneStmtBinds(s: Stmt, ctx: Ctx, env: Env, debug: bool)
    ensures CheckStmt(s, ctx).Some? ==> CheckStmt(s, ctx).value.Keys == ctx.Keys + BoundBy(s)
    ensures ExecStmt(s, env, debug).Done? ==> ExecStmt(s, env, debug).value.Keys == env.Keys + BoundBy(s)
  {
    hide CmValue.Variant, KindOfVariant;
  }

  /** The checker and the interpreter bring the same names into scope. */
  lemma {:induction false} NamesInScope(ss: seq<Stmt>, ctx: Ctx, env: Env, debug: bool)
    ensures CheckStmts(ss, ctx).Some? ==> CheckStmts(ss, ctx).value.Keys == ctx.Keys + Bound(ss)
    ensures ExecStmts(ss, env, debug).Done? ==> ExecStmts(ss, env, debug).value.Keys == env.Keys + Bound(ss)
  {
    hide CheckStmt, ExecStmt, BoundBy;
    if ss != [] {
      OneStmtBinds(ss[0], ctx, env, debug);
      var next, step := CheckStmt(ss[0], ctx), ExecStmt(ss[0], env, debug);
      NamesInScope(ss[1..], if next.Some? then next.value else ctx, if step.Done? then step.value else env, debug);
    }
  }

  /** The statements, then the arguments, then the callee, unless a local hides it. */
  lemma {:induction false} CallUnfolds(b: Body, scope: Scope, args: seq<CmValue>, debug: bool)
    requires b.callee in scope
    ensures CallOf(b, scope, args, debug) ==
            match ExecStmts(b.stmts, map["args" := VSlice(args)], debug)
            case Panic => Panic
            case Undefined => Undefined
            case Stuck => Stuck
            case Done(env) =>
              match EvalAll(b.args, env)
              case Panic => Panic
              case Undefined => Undefined
              case Stuck => Stuck
              case Done(values) =>
                if b.callee.Name() in {"args"} + Bound(b.stmts) then Stuck
                  else Done(Invocation(scope[b.callee].symbol, values))
  {
    hide ExecStmts, EvalAll, Bound, CheckStmts;
    NamesInScope(b.stmts, ENTRY_CTX, map["args" := VSlice(args)], debug);
  }

  lemma {:induction false} StmtsAreSound(ss: seq<Stmt>, ctx: Ctx, env: Env, debug: bool)
    requires EnvHasTy(env, ctx)
    requires CheckStmts(ss, ctx).Some?
    ensures !ExecStmts(ss, env, debug).Stuck?
    ensures ExecStmts(ss, env, debug).Done? ==>
              EnvHasTy(ExecStmts(ss, env, debug).value, CheckStmts(ss, ctx).value)
  {
    hide PrimKind.VariantName;
    if ss != [] {
      var next := CheckStmt(ss[0], ctx).value;
      var step := ExecStmt(ss[0], env, debug);
      if ss[0].LetScalar? {
        var kind := KindOfVariant(ss[0].variant).value;
        NameOfItsKind(ss[0].variant);
        forall v: CmValue ensures v.Variant() == ss[0].variant <==> v.Prim? && v.kind == kind {
          VariantSelectsKind(v, kind);
        }
      }
      if step.Done? {
        StmtsAreSound(ss[1..], next, step.value, debug);
      }
    }
  }

  lemma {:induction false} ArgsAreSound(es: seq<ArgExpr>, ts: seq<Ty>, ctx: Ctx, env: Env)
    requires EnvHasTy(env, ctx)
    requires |es| == |ts| && forall k | 0 <= k < |es| :: TypeOf(es[k], ctx) == Some(ts[k])
    ensures !EvalAll(es, env).Stuck?
    ensures EvalAll(es, env).Done? ==>
              && |EvalAll(es, env).value| == |ts|
              && forall k | 0 <= k < |ts| :: HasTy(EvalAll(es, env).value[k], ts[k])
  {
    if es != [] {
      assert TypeOf(es[0], ctx) == Some(ts[0]);
      ArgsAreSound(es[1..], ts[1..], ctx, env);
    }
  }

  /** A wrapper that compiles never gets stuck, and it calls its symbol with one
      value of the declared type per parameter. */
  lemma {:induction false} CompiledWrappersAreSound(b: Body, scope: Scope, kernel: Kernel, args: seq<CmValue>,
          debug: bool)
    requires Compiles(b, scope)
    ensures var call := CallOf(b, scope, args, debug);
            var sig := scope[b.callee].sig;
            && !call.Stuck?
            && (call.Done? ==>
                  && call.value.symbol == scope[b.callee].symbol
                  && |call.value.values| == |sig.params|
                  && forall k | 0 <= k < |sig.params| :: HasTy(call.value.values[k], sig.params[k]))
    ensures WellTyped(kernel, scope) ==> !Run(b, scope, kernel, args, debug).Stuck?
  {
    var env: Env := map["args" := VSlice(args)];
    StmtsAreSound(b.stmts, ENTRY_CTX, env, debug);
    NamesInScope(b.stmts, ENTRY_CTX, env, debug);
    var after := ExecStmts(b.stmts, env, debug);
    if after.Done? {
      ArgsAreSound(b.args, scope[b.callee].sig.params, CheckStmts(b.stmts, ENTRY_CTX).value, after.value);
      var call := CallOf(b, scope, args, debug);
      if call.Done? && WellTyped(kernel, scope) {
        assert RawHasTy(kernel(call.value), scope[b.callee].sig.ret);
      }
    }
  }
}
