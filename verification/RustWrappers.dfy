/** What the emitted Rust wrappers mean: when they compile, what they accept, and
    that the checked wrapper, its unchecked twin and their in-process copies all
    make the same call. */
module RustWrappers {
  import opened Common
  import opened KernelTypes
  import opened WrapperCode
  import opened RustRenderers

  /** Parameter names are distinct and do not collide with the names the
      renderer itself uses: `args`, and `{p}_s` for a `&str` parameter `p`. */
  predicate Hygienic(ps: seq<Param>) {
    && (forall i, j | 0 <= i < j < |ps| :: ps[i].name != ps[j].name)
    && (forall i | 0 <= i < |ps| :: ps[i].name != "args")
    && (forall i, j | 0 <= i < |ps| && 0 <= j < |ps| && ps[i].kind.StrRef? :: ps[j].name != ps[i].name + "_s")
  }

  predicate VariadicLast(ps: seq<Param>) {
    forall i | 0 <= i < |ps| - 1 :: !ps[i].kind.IsVariadic()
  }

  predicate NoWideParam(ps: seq<Param>) {
    forall p <- ps :: p.kind.Primitive? ==> !p.kind.prim.IsWide()
  }

  predicate NoWideReturn(r: CmRet) {
    r.ReturnsPrimitive? ==> !r.prim.IsWide()
  }

  /** No parameter behind the first variadic one needs a local. */
  predicate NothingBoundAfterVariadic(ps: seq<Param>) {
    forall i, j | 0 <= i < j < |ps| && ps[i].kind.IsVariadic() ::
      !Extracted(ps[j].kind) && !ps[j].kind.VecCmTypes?
  }

  /** Nothing the wrapper binds is called `name`: neither the argument list itself, nor
      an unpacked parameter or its temporary, nor the collected tail. */
  predicate Visible(ps: seq<Param>, name: string) {
    var n := FixedCount(ps);
    && name != "args"
    && (forall j | 0 <= j < n && Extracted(ps[j].kind) ::
          ps[j].name != name && (ps[j].kind.StrRef? ==> ps[j].name + "_s" != name))
    && (n < |ps| && ps[n].kind.VecCmTypes? ==> ps[n].name != name)
  }

  /** What the kernel has to receive for parameter j, read off the argument list. */
  ghost function ParamValue(kind: ParamKind, j: nat, args: seq<CmValue>): Value
    requires !kind.COnly()
    requires if kind.IsVariadic() then j <= |args| else SlotHolds(kind, j, args)
  {
    match kind
    case CmTypesRef => VRefCm(args[j])
    case Primitive(prim) => VScalar(prim, args[j].bits)
    case StrRef => VStr(args[j].text)
    case OwnedString => VString(args[j].text)
    case VecCmTypes => VRefVec(args[j..])
    case SliceCmTypes => VSlice(args[j..])
  }

  /** Slot j exists and has the shape the parameter wants. */
  ghost predicate SlotHolds(kind: ParamKind, j: nat, args: seq<CmValue>) {
    && j < |args|
    && match kind
       case Primitive(prim) => args[j].Prim? && args[j].kind == prim
       case StrRef => args[j].Text?
       case OwnedString => args[j].Text?
       case _ => true
  }

  ghost predicate AllSlotsHold(ps: seq<Param>, args: seq<CmValue>) {
    && FixedCount(ps) <= |args|
    && forall j | 0 <= j < FixedCount(ps) :: SlotHolds(ps[j].kind, j, args)
  }

  ghost function ParamValues(ps: seq<Param>, args: seq<CmValue>): seq<Value>
    requires forall p <- ps :: !p.kind.COnly()
    requires VariadicLast(ps) && AllSlotsHold(ps, args)
  {
    seq(|ps|, j requires 0 <= j < |ps| =>
      assert !ps[j].kind.IsVariadic() ==> j < FixedCount(ps);
      ParamValue(ps[j].kind, j, args))
  }

  // ------------------------------------------------ the argspec, slot by slot

  lemma {:induction false} SpecWordIsTheShape(kind: ParamKind, v: CmValue)
    requires !kind.COnly() && !kind.IsVariadic()
    ensures SpecWord(kind) != "..."
    ensures (SpecWord(kind) == "*" || v.Variant() == SpecWord(kind)) <==> SlotHolds(kind, 0, [v])
  {
    StringVariantSelectsText(v);
    if kind.Primitive? {
      VariantSelectsKind(v, kind.prim);
      assert KindOfVariant(kind.prim.VariantName()) == Some(kind.prim);
      assert KindOfVariant("*") == None && KindOfVariant("...") == None;
    }
  }

  lemma {:induction false} ArgspecCountsFixed(e: ExportedFn)
    requires RustEntry(e) && VariadicLast(e.params)
    ensures EntryArgspec(e).Some? && FixedSlots(EntryArgspec(e).value) == FixedCount(e.params)
    ensures |EntryArgspec(e).value| == |e.params|
    ensures forall j | 0 <= j < |e.params| ::
            !e.params[j].kind.COnly() && EntryArgspec(e).value[j] == SpecWord(e.params[j].kind)
  {
    hide CmValue.Variant;
    var ps := e.params;
    assert FixedCount(ps) == |ps| || FixedCount(ps) == |ps| - 1;
    if |ps| > 0 && !ps[|ps| - 1].kind.IsVariadic() {
      SpecWordIsTheShape(ps[|ps| - 1].kind, NoneValue);
    }
  }

  /** For an entry whose variadic parameter is last, the published argspec says
      exactly which argument lists have every fixed slot well shaped. */
  lemma {:induction false} ArgspecIsTheShape(e: ExportedFn, args: seq<CmValue>)
    requires RustEntry(e) && VariadicLast(e.params)
    ensures FixedSlots(EntryArgspec(e).value) == FixedCount(e.params)
    ensures Accepts(EntryArgspec(e).value, args) <==> AllSlotsHold(e.params, args)
  {
    ArgspecCountsFixed(e);
    hide SpecWord, CmValue.Variant, EntryArgspec, FixedSlots;
    var ps, spec := e.params, EntryArgspec(e).value;
    forall j | 0 <= j < FixedCount(ps) && j < |args|
      ensures (spec[j] == "*" || args[j].Variant() == spec[j]) <==> SlotHolds(ps[j].kind, j, args)
    {
      SpecWordIsTheShape(ps[j].kind, args[j]);
    }
  }

  // -------------------------------------------------- running the extraction

  lemma {:induction false} ExecAppend(a: seq<Stmt>, b: seq<Stmt>, env: Env, debug: bool)
    ensures ExecStmts(a + b, env, debug) ==
            match ExecStmts(a, env, debug)
            case Done(mid) => ExecStmts(b, mid, debug)
            case Panic => Panic
            case Undefined => Undefined
            case Stuck => Stuck
  {
    if a == [] {
      assert a + b == b;
    } else {
      assert (a + b)[0] == a[0] && (a + b)[1..] == a[1..] + b;
      var step := ExecStmt(a[0], env, debug);
      if step.Done? {
        ExecAppend(a[1..], b, step.value, debug);
      }
    }
  }

  /** The locals a correct extraction leaves behind for the first n parameters. */
  ghost predicate LocalsReady(ps: seq<Param>, n: nat, args: seq<CmValue>, env: Env)
    requires n <= |ps|
  {
    && "args" in env && env["args"] == VSlice(args)
    && forall j | 0 <= j < n && Extracted(ps[j].kind) ::
         && SlotHolds(ps[j].kind, j, args)
         && ps[j].name in env && env[ps[j].name] == ParamValue(ps[j].kind, j, args)
  }

  ghost predicate ExtractedSlotsHold(ps: seq<Param>, n: nat, args: seq<CmValue>)
    requires n <= |ps|
  {
    forall j | 0 <= j < n && Extracted(ps[j].kind) :: SlotHolds(ps[j].kind, j, args)
  }

  /** The environment a parameter's statements leave behind. */
  ghost function AfterParam(p: Param, i: nat, args: seq<CmValue>, env: Env): Env
    requires Extracted(p.kind) ==> SlotHolds(p.kind, i, args)
  {
    if !Extracted(p.kind) then env
    else if p.kind.StrRef? then env[p.name + "_s" := VString(args[i].text)][p.name := VStr(args[i].text)]
    else env[p.name := ParamValue(p.kind, i, args)]
  }

  /** One parameter's statements succeed exactly when its slot has the shape, and
      then leave its value in its local. */
  lemma {:induction false} OneParamRuns(p: Param, i: nat, access: Access, args: seq<CmValue>, env: Env, debug: bool)
    requires "args" in env && env["args"] == VSlice(args)
    requires p.kind.Primitive? ==> !p.kind.prim.IsWide()
    ensures var r := ExecStmts(ParamStmts(p, i, access), env, debug);
            && (r.Done? <==> (Extracted(p.kind) ==> SlotHolds(p.kind, i, args)))
            && !r.Stuck?
            && (r.Done? ==> r.value == AfterParam(p, i, args, env))
            && (r.Undefined? ==> access.Unchecked? && (!debug || |args| <= i))
  {
    if i < |args| {
      StringVariantSelectsText(args[i]);
      if p.kind.Primitive? {
        VariantSelectsKind(args[i], p.kind.prim);
      }
    }
    var ss := ParamStmts(p, i, access);
    if Extracted(p.kind) {
      var first := ExecStmt(ss[0], env, debug);
      assert ExecStmts(ss, env, debug) ==
             if first.Done? then ExecStmts(ss[1..], first.value, debug) else first;
      if p.kind.StrRef? && first.Done? {
        assert ss[1..] == [ss[1]];
        assert ExecStmts(ss[1..], first.value, debug) == ExecStmt(ss[1], first.value, debug);
      }
    }
  }

  lemma {:induction false} LocalsStep(ps: seq<Param>, n: nat, args: seq<CmValue>, env: Env)
    requires n < |ps| && Hygienic(ps)
    requires LocalsReady(ps, n, args, env)
    requires Extracted(ps[n].kind) ==> SlotHolds(ps[n].kind, n, args)
    ensures LocalsReady(ps, n + 1, args, AfterParam(ps[n], n, args, env))
  {
    TempIsNotArgs(ps[n].name);
    var after := AfterParam(ps[n], n, args, env);
    forall j | 0 <= j < n && Extracted(ps[j].kind)
      ensures ps[j].name in after && after[ps[j].name] == env[ps[j].name]
    {
      assert ps[j].name != ps[n].name;
    }
  }

  lemma {:induction false} SlotsStep(ps: seq<Param>, n: nat, args: seq<CmValue>)
    requires n <= |ps|
    ensures if n == 0 then ExtractedSlotsHold(ps, n, args)
            else ExtractedSlotsHold(ps, n, args) <==>
                 ExtractedSlotsHold(ps, n - 1, args) &&
                   (Extracted(ps[n - 1].kind) ==> SlotHolds(ps[n - 1].kind, n - 1, args))
  {
    hide SlotHolds, Extracted;
  }

  lemma {:induction false} LocalsKeepArgs(ps: seq<Param>, n: nat, args: seq<CmValue>, env: Env)
    requires n <= |ps| && LocalsReady(ps, n, args, env)
    ensures "args" in env && env["args"] == VSlice(args)
  {
  }

  lemma {:induction false} FixedStep(ps: seq<Param>, n: nat, access: Access, args: seq<CmValue>, debug: bool)
    requires n <= |ps| && NoWideParam(ps)
    ensures var env: Env := map["args" := VSlice(args)];
            n == 0 ==> ExecStmts(FixedStmts(ps, n, access), env, debug) == Done(env) && LocalsReady(ps, n, args, env)
    ensures n > 0 ==>
              && FixedStmts(ps, n, access) == FixedStmts(ps, n - 1, access) + ParamStmts(ps[n - 1], n - 1, access)
              && (ps[n - 1].kind.Primitive? ==> !ps[n - 1].kind.prim.IsWide())
  {
    hide ParamStmts;
    assert n > 0 ==> ps[n - 1] in ps;
  }

  lemma {:induction false} ExtractionRuns(ps: seq<Param>, n: nat, access: Access, args: seq<CmValue>, debug: bool)
    requires n <= |ps| && Hygienic(ps) && NoWideParam(ps)
    ensures var r := ExecStmts(FixedStmts(ps, n, access), map["args" := VSlice(args)], debug);
            && (r.Done? <==> ExtractedSlotsHold(ps, n, args))
            && !r.Stuck?
            && (r.Done? ==> LocalsReady(ps, n, args, r.value))
            && (r.Undefined? ==> access.Unchecked? && (!debug || |args| < n))
  {
    hide *;
    var env: Env := map["args" := VSlice(args)];
    FixedStep(ps, n, access, args, debug);
    SlotsStep(ps, n, args);
    if n > 0 {
      ExtractionRuns(ps, n - 1, access, args, debug);
      var p := ps[n - 1];
      ExecAppend(FixedStmts(ps, n - 1, access), ParamStmts(p, n - 1, access), env, debug);
      var mid := ExecStmts(FixedStmts(ps, n - 1, access), env, debug);
      if mid.Done? {
        LocalsKeepArgs(ps, n - 1, args, mid.value);
        OneParamRuns(p, n - 1, access, args, mid.value, debug);
        if Extracted(p.kind) ==> SlotHolds(p.kind, n - 1, args) {
          LocalsStep(ps, n - 1, args, mid.value);
        }
      }
    }
  }

  lemma {:induction false} TempIsNotArgs(name: string)
    ensures name + "_s" != "args"
  {
    var temp, slice := name + "_s", "args";
    assert temp[|temp| - 2] == '_';
    assert slice[|slice| - 2] == 'g';
  }

  // ----------------------------------------------------------- names in scope

  lemma {:induction false} BoundAppend(a: seq<Stmt>, b: seq<Stmt>)
    ensures Bound(a + b) == Bound(a) + Bound(b)
  {
    if a == [] {
      assert a + b == b;
    } else {
      assert (a + b)[0] == a[0] && (a + b)[1..] == a[1..] + b;
      BoundAppend(a[1..], b);
    }
  }

  lemma {:induction false} ParamBinds(p: Param, i: nat, access: Access, x: string)
    ensures x in Bound(ParamStmts(p, i, access)) <==>
            Extracted(p.kind) && (x == p.name || (p.kind.StrRef? && x == p.name + "_s"))
  {
    var ss := ParamStmts(p, i, access);
    assert Bound(ss) == if ss == [] then {} else BoundBy(ss[0]) + Bound(ss[1..]);
    if p.kind.StrRef? {
      assert ss[1..] == [ss[1]] && [ss[1]][1..] == [];
      assert Bound([ss[1]]) == BoundBy(ss[1]) + Bound([]);
    }
  }

  lemma {:induction false} FixedBinds(ps: seq<Param>, n: nat, access: Access, x: string)
    requires n <= |ps|
    ensures x in Bound(FixedStmts(ps, n, access)) <==>
            exists j | 0 <= j < n :: Extracted(ps[j].kind) &&
                                     (x == ps[j].name || (ps[j].kind.StrRef? && x == ps[j].name + "_s"))
  {
    hide ParamStmts, Extracted;
    if n > 0 {
      FixedBinds(ps, n - 1, access, x);
      BoundAppend(FixedStmts(ps, n - 1, access), ParamStmts(ps[n - 1], n - 1, access));
      ParamBinds(ps[n - 1], n - 1, access, x);
    }
  }

  /** A name is visible at the call exactly when no statement of the body binds it. */
  lemma {:induction false} VisibleExactly(e: ExportedFn, access: Access, callee: Callee, x: string)
    requires RustEntry(e)
    ensures Visible(e.params, x) <==> x !in {"args"} + Bound(WrapperBody(e, access, callee).stmts)
  {
    var ps := e.params;
    var n := FixedCount(ps);
    var pre := if access.Checked? then [] else CountAssertion(ps);
    var fixed, tail := FixedStmts(ps, n, access), TailStmts(ps);
    assert Bound(pre) == {};
    assert Bound(tail) == if n < |ps| && ps[n].kind.VecCmTypes? then {ps[n].name} else {};
    assert WrapperBody(e, access, callee).stmts == pre + fixed + tail;
    FixedBinds(ps, n, access, x);
    hide FixedStmts, TailStmts, CountAssertion, Bound, WrapperBody;
    BoundAppend(pre + fixed, tail);
    BoundAppend(pre, fixed);
  }

  // ------------------------------------------------------ evaluating the call

  function Bad<T>(access: Access): Outcome<T> {
    if access.Checked? then Panic else Undefined
  }

  lemma {:induction false} EvalAllPointwise(es: seq<ArgExpr>, env: Env, access: Access)
    requires forall e <- es :: Eval(e, env).Done? || Eval(e, env) == Bad(access)
    ensures if forall e <- es :: Eval(e, env).Done?
            then && EvalAll(es, env).Done? && |EvalAll(es, env).value| == |es|
                 && forall k | 0 <= k < |es| :: EvalAll(es, env).value[k] == Eval(es[k], env).value
            else EvalAll(es, env) == Bad(access)
  {
    if es != [] {
      var rest := es[1..];
      assert es[0] in es && forall e <- rest :: e in es;
      EvalAllPointwise(rest, env, access);
      EvalAllStep(es, env);
      hide *;
      assert forall e <- es :: e == es[0] || e in rest;
      if forall e <- es :: Eval(e, env).Done? {
        forall k | 0 <= k < |es| ensures EvalAll(es, env).value[k] == Eval(es[k], env).value {
          assert k > 0 ==> es[k] == rest[k - 1];
        }
      }
    }
  }

  lemma {:induction false} EvalAllStep(es: seq<ArgExpr>, env: Env)
    requires es != []
    ensures EvalAll(es, env) ==
            match Eval(es[0], env)
            case Panic => Panic
            case Undefined => Undefined
            case Stuck => Stuck
            case Done(v) =>
              match EvalAll(es[1..], env)
              case Panic => Panic
              case Undefined => Undefined
              case Stuck => Stuck
              case Done(rest) => Done([v] + rest)
  {
    hide Eval;
  }

  /** With the locals in place, evaluating the argument list fails exactly when a
      pass-through slot is missing, and otherwise delivers every parameter. */
  lemma {:induction false} CallArgsDeliver(e: ExportedFn, access: Access, args: seq<CmValue>, env: Env)
    requires RustEntry(e) && VariadicLast(e.params)
    requires LocalsReady(e.params, FixedCount(e.params), args, env)
    requires TailReady(e.params, args, env)
    ensures EvalAll(CallArgs(e.params, access), env) ==
            if AllSlotsHold(e.params, args) then Done(ParamValues(e.params, args)) else Bad(access)
  {
    var ps := e.params;
    var es := CallArgs(ps, access);
    var n := FixedCount(ps);
    forall k | 0 <= k < |es|
      ensures Eval(es[k], env).Done? || Eval(es[k], env) == Bad(access)
      ensures Eval(es[k], env).Done? <==> (if k < n then SlotHolds(ps[k].kind, k, args) else n <= |args|)
      ensures AllSlotsHold(ps, args) ==> Eval(es[k], env) == Done(ParamValues(ps, args)[k])
    {
      OneArgDelivers(e, access, args, env, k);
    }
    hide Eval, SlotHolds, LocalsReady, TailReady, CallArg, ParamValue, VariadicLast, AllSlotsHold;
    EvalAllPointwise(es, env, access);
    if AllSlotsHold(ps, args) {
      assert EvalAll(es, env).value == ParamValues(ps, args);
    } else {
      MissingSlotShows(ps, args);
      var bad :| 0 <= bad < |ps| && !(if bad < n then SlotHolds(ps[bad].kind, bad, args) else n <= |args|);
      assert !Eval(es[bad], env).Done? && es[bad] in es;
    }
  }

  lemma {:induction false} OneArgDelivers(e: ExportedFn, access: Access, args: seq<CmValue>, env: Env, k: nat)
    requires RustEntry(e) && VariadicLast(e.params) && k < |e.params|
    requires LocalsReady(e.params, FixedCount(e.params), args, env)
    requires TailReady(e.params, args, env)
    ensures var r := Eval(CallArgs(e.params, access)[k], env);
            && (r.Done? || r == Bad(access))
            && (r.Done? <==> if k < FixedCount(e.params) then SlotHolds(e.params[k].kind, k, args)
                 else FixedCount(e.params) <= |args|)
            && (AllSlotsHold(e.params, args) ==> r == Done(ParamValues(e.params, args)[k]))
  {
  }

  lemma {:induction false} MissingSlotShows(ps: seq<Param>, args: seq<CmValue>)
    requires !AllSlotsHold(ps, args)
    ensures exists bad :: 0 <= bad < |ps| &&
              !(if bad < FixedCount(ps) then SlotHolds(ps[bad].kind, bad, args) else FixedCount(ps) <= |args|)
  {
    var n := FixedCount(ps);
    if |args| < n {
      assert !SlotHolds(ps[|args|].kind, |args|, args);
    }
  }

  ghost predicate TailReady(ps: seq<Param>, args: seq<CmValue>, env: Env) {
    var n := FixedCount(ps);
    n < |ps| && ps[n].kind.VecCmTypes? ==>
      n <= |args| && ps[n].name in env && env[ps[n].name] == VVec(args[n..])
  }

  /** The statement part of both emitted bodies; `pre` is the twin's leading debug
      assertion, or nothing. */
  lemma {:induction false} StmtsRun(ps: seq<Param>, pre: seq<Stmt>, access: Access, args: seq<CmValue>, debug: bool)
    requires VariadicLast(ps) && Hygienic(ps) && NoWideParam(ps)
    requires pre == [] || pre == [AssertArgCount(FixedCount(ps))]
    ensures var n := FixedCount(ps);
            var r := ExecStmts(pre + FixedStmts(ps, n, access) + TailStmts(ps), map["args" := VSlice(args)], debug);
            && !r.Stuck?
            && (r.Done? ==> LocalsReady(ps, n, args, r.value) && TailReady(ps, args, r.value))
            && (AllSlotsHold(ps, args) ==> r.Done?)
            && (r.Done? && debug && pre != [] ==> n <= |args|)
            && (r.Undefined? ==> access.Unchecked? && !(debug && (pre != [] || n == 0)))
  {
    var n := FixedCount(ps);
    var env: Env := map["args" := VSlice(args)];
    var fixed, tail := FixedStmts(ps, n, access), TailStmts(ps);
    assert ExecStmts(pre, env, debug) == if pre != [] && debug && |args| < n then Panic else Done(env);
    AllSlotsAreFixed(ps, args);
    hide ExecStmts, ExecStmt, FixedStmts, TailStmts, LocalsReady, TailReady, SlotHolds, ExtractedSlotsHold,
         AllSlotsHold, Hygienic;
    ExecAppend(pre + fixed, tail, env, debug);
    ExecAppend(pre, fixed, env, debug);
    ExtractionRuns(ps, n, access, args, debug);
    var mid := ExecStmts(fixed, env, debug);
    if mid.Done? {
      TailRuns(ps, args, mid.value, debug);
    }
  }

  lemma {:induction false} AllSlotsAreFixed(ps: seq<Param>, args: seq<CmValue>)
    ensures AllSlotsHold(ps, args) ==> FixedCount(ps) <= |args| && ExtractedSlotsHold(ps, FixedCount(ps), args)
  {
    hide SlotHolds;
  }

  /** Collecting the variadic tail fails only when the fixed slots are missing. */
  lemma {:induction false} TailRuns(ps: seq<Param>, args: seq<CmValue>, env: Env, debug: bool)
    requires VariadicLast(ps) && Hygienic(ps) && LocalsReady(ps, FixedCount(ps), args, env)
    ensures var n := FixedCount(ps);
            var r := ExecStmts(TailStmts(ps), env, debug);
            && (r.Done? || r.Panic?) && (n <= |args| ==> r.Done?)
            && (r.Done? ==> LocalsReady(ps, n, args, r.value) && TailReady(ps, args, r.value))
  {
    var tail := TailStmts(ps);
    assert ExecStmts(tail, env, debug) == if tail == [] then Done(env) else ExecStmt(tail[0], env, debug);
  }

  /** Both emitted bodies, given that their statements ran. */
  lemma {:induction false} BodyRuns(e: ExportedFn, pre: seq<Stmt>, access: Access, callee: Callee, scope: Scope,
                 args: seq<CmValue>, debug: bool)
    requires RustEntry(e) && VariadicLast(e.params) && Hygienic(e.params) && NoWideParam(e.params)
    requires callee in scope
    requires pre == if access.Checked? then [] else CountAssertion(e.params)
    ensures var call := CallOf(WrapperBody(e, access, callee), scope, args, debug);
            if AllSlotsHold(e.params, args) then call == Reached(e, callee, scope, args)
            else && (call.Panic? || call.Undefined?)
                 && (access.Checked? || debug ==> call.Panic?)
  {
    hide *;
    var ps := e.params;
    var b := WrapperBody(e, access, callee);
    BodyParts(e, access, callee);
    StmtsRun(ps, pre, access, args, debug);
    VisibleExactly(e, access, callee, callee.Name());
    CallUnfolds(b, scope, args, debug);
    ReachedIs(e, callee, scope, args);
    var r := ExecStmts(b.stmts, map["args" := VSlice(args)], debug);
    if r.Done? {
      CallArgsDeliver(e, access, args, r.value);
      BadIs(access);
      if FixedCount(ps) <= |args| {
        EnoughMeansAll(ps, args, r.value);
      }
    }
  }

  lemma {:induction false} EnoughMeansAll(ps: seq<Param>, args: seq<CmValue>, env: Env)
    requires LocalsReady(ps, FixedCount(ps), args, env) && FixedCount(ps) <= |args|
    ensures AllSlotsHold(ps, args)
  {
  }

  lemma {:induction false} BadIs(access: Access)
    ensures Bad<seq<Value>>(access) == if access.Checked? then Outcome<seq<Value>>.Panic else Undefined
  {
  }

  lemma {:induction false} BodyParts(e: ExportedFn, access: Access, callee: Callee)
    requires RustEntry(e)
    ensures var ps := e.params;
            var pre := if access.Checked? then [] else CountAssertion(ps);
            && WrapperBody(e, access, callee) ==
               Body(pre + FixedStmts(ps, FixedCount(ps), access) + TailStmts(ps), callee, CallArgs(ps, access),
                 WrapOf(e.ret))
            && (pre == [] || pre == [AssertArgCount(FixedCount(ps))])
            && (pre == [] ==> access.Checked? || FixedCount(ps) == 0)
  {
    hide FixedStmts, TailStmts, CallArgs, WrapOf;
    var fixed := FixedStmts(e.params, FixedCount(e.params), access);
    assert [] + fixed == fixed;
  }

  lemma {:induction false} ReachedIs(e: ExportedFn, callee: Callee, scope: Scope, args: seq<CmValue>)
    requires RustEntry(e) && VariadicLast(e.params) && callee in scope
    ensures AllSlotsHold(e.params, args) ==>
              Reached(e, callee, scope, args) ==
              if Visible(e.params, callee.Name())
                then Done(Invocation(scope[callee].symbol, ParamValues(e.params, args))) else Stuck
  {
  }

  /** A call that every slot allows: made, unless a local hides the callee. */
  ghost function Reached(e: ExportedFn, callee: Callee, scope: Scope, args: seq<CmValue>): Outcome<Invocation>
    requires RustEntry(e) && VariadicLast(e.params) && AllSlotsHold(e.params, args) && callee in scope
  {
    if Visible(e.params, callee.Name()) then Done(Invocation(scope[callee].symbol, ParamValues(e.params, args)))
      else Stuck
  }

  // ------------------------------------------------------------ main results

  /** The checked wrapper panics on exactly the argument lists its argspec
      refuses; on the others it calls its symbol with each parameter's value. */
  lemma {:induction false} CheckedWrapperIsExact(e: ExportedFn, callee: Callee, scope: Scope, args: seq<CmValue>,
          debug: bool)
    requires RustEntry(e) && VariadicLast(e.params) && Hygienic(e.params) && NoWideParam(e.params)
    requires callee in scope
    ensures AllSlotsHold(e.params, args) <==> Accepts(EntryArgspec(e).value, args)
    ensures CallOf(CheckedBody(e, callee), scope, args, debug) ==
            if !Accepts(EntryArgspec(e).value, args) then Panic
            else if !Visible(e.params, callee.Name()) then Stuck
            else Done(Invocation(scope[callee].symbol, ParamValues(e.params, args)))
  {
    ArgspecIsTheShape(e, args);
    BodyRuns(e, [], Checked, callee, scope, args, debug);
  }

  /** The unchecked twin: same call on every list the argspec accepts; never a
      call on any other; in debug builds indistinguishable from the checked one. */
  lemma {:induction false} UncheckedTwinAgrees(e: ExportedFn, callee: Callee, scope: Scope, args: seq<CmValue>,
          debug: bool)
    requires RustEntry(e) && VariadicLast(e.params) && Hygienic(e.params) && NoWideParam(e.params)
    requires callee in scope
    ensures var twin := CallOf(UncheckedBody(e, callee), scope, args, debug);
            var checked := CallOf(CheckedBody(e, callee), scope, args, debug);
            && (Accepts(EntryArgspec(e).value, args) ==> twin == checked)
            && (twin.Done? <==> Accepts(EntryArgspec(e).value, args) && Visible(e.params, callee.Name()))
            && (debug ==> twin == checked)
  {
    CheckedWrapperIsExact(e, callee, scope, args, debug);
    BodyRuns(e, CountAssertion(e.params), Unchecked, callee, scope, args, debug);
  }

  /** The in-process wrappers and the dlsym ones, the static holding the symbol the
      plugin defines: they end every run alike, except that a companion hidden by one
      of its own parameters is never called. */
  lemma {:induction false} InProcessWrappersAgree(e: ExportedFn, access: Access, scope: Scope, kernel: Kernel,
          args: seq<CmValue>, debug: bool)
    requires RustEntry(e)
    requires CachedStatic(SymStaticName(e.cmName)) in scope && InProcess(e.cmName) in scope
    requires scope[CachedStatic(SymStaticName(e.cmName))].symbol == scope[InProcess(e.cmName)].symbol
    ensures var linked := WrapperBody(e, access, CachedStatic(SymStaticName(e.cmName)));
            var direct := WrapperBody(e, access, InProcess(e.cmName));
            && (Visible(e.params, SymStaticName(e.cmName)) ==>
                  Run(direct, scope, kernel, args, debug) ==
                  if Visible(e.params, e.cmName) || !CallOf(linked, scope, args, debug).Done?
                  then Run(linked, scope, kernel, args, debug) else Stuck)
            && (!Visible(e.params, e.cmName) ==> !Run(direct, scope, kernel, args, debug).Done?)
  {
    var linked, direct := CachedStatic(SymStaticName(e.cmName)), InProcess(e.cmName);
    assert linked.Name() == SymStaticName(e.cmName) && direct.Name() == e.cmName;
    hide *;
    var a, b := WrapperBody(e, access, linked), WrapperBody(e, access, direct);
    BodyParts(e, access, linked);
    BodyParts(e, access, direct);
    CallUnfolds(a, scope, args, debug);
    CallUnfolds(b, scope, args, debug);
    RunUnfolds(a, scope, kernel, args, debug);
    RunUnfolds(b, scope, kernel, args, debug);
    VisibleExactly(e, access, linked, linked.Name());
    VisibleExactly(e, access, direct, direct.Name());
  }

  // --------------------------------------------------------- does it compile?

  lemma {:induction false} CheckAppend(a: seq<Stmt>, b: seq<Stmt>, ctx: Ctx)
    ensures CheckStmts(a + b, ctx) ==
            match CheckStmts(a, ctx)
            case None => None
            case Some(mid) => CheckStmts(b, mid)
  {
    if a == [] {
      assert a + b == b;
    } else {
      assert (a + b)[0] == a[0] && (a + b)[1..] == a[1..] + b;
      if CheckStmt(a[0], ctx).Some? {
        CheckAppend(a[1..], b, CheckStmt(a[0], ctx).value);
      }
    }
  }

  /** The names in scope after extracting the first n parameters are exactly
      `args`, their own, and their temporaries. */
  ghost predicate CtxReady(ps: seq<Param>, n: nat, ctx: Ctx)
    requires n <= |ps| && forall p <- ps :: !p.kind.COnly()
  {
    && SliceInScope(ctx)
    && (forall j | 0 <= j < n && Extracted(ps[j].kind) ::
          ps[j].name in ctx && ctx[ps[j].name] == TyOf(ps[j].kind))
    && ctx.Keys <= {"args"} + NamesUsed(ps, n)
  }

  /** The first n parameters' names and temporaries. */
  ghost function NamesUsed(ps: seq<Param>, n: nat): set<string>
    requires n <= |ps|
  {
    if n == 0 then {}
    else NamesUsed(ps, n - 1) + {ps[n - 1].name} + (if ps[n - 1].kind.StrRef? then {ps[n - 1].name + "_s"} else {})
  }

  lemma {:induction false} LaterNameIsFree(ps: seq<Param>, n: nat, k: nat)
    requires n <= k < |ps| && Hygienic(ps)
    ensures ps[k].name !in {"args"} + NamesUsed(ps, n)
  {
    if n > 0 {
      LaterNameIsFree(ps, n - 1, k);
    }
  }

  predicate NarrowUpTo(ps: seq<Param>, n: nat)
    requires n <= |ps|
  {
    forall j | 0 <= j < n && ps[j].kind.Primitive? :: !ps[j].kind.prim.IsWide()
  }

  ghost function AfterTyping(p: Param, ctx: Ctx): Ctx
    requires !p.kind.COnly()
  {
    if !Extracted(p.kind) then ctx
    else if p.kind.StrRef? then ctx[p.name + "_s" := TString][p.name := TStr]
    else ctx[p.name := TyOf(p.kind)]
  }

  lemma {:induction false} OneParamChecks(p: Param, i: nat, access: Access, ctx: Ctx)
    requires SliceInScope(ctx) && !p.kind.COnly()
    ensures CheckStmts(ParamStmts(p, i, access), ctx) ==
            if p.kind.Primitive? && p.kind.prim.IsWide() then None else Some(AfterTyping(p, ctx))
  {
    hide KindOfVariant, PrimKind.VariantName;
    var ss := ParamStmts(p, i, access);
    if p.kind.Primitive? {
      KindOfItsName(p.kind.prim);
    }
    if Extracted(p.kind) {
      var first := CheckStmt(ss[0], ctx);
      assert CheckStmts(ss, ctx) == if first.Some? then CheckStmts(ss[1..], first.value) else first;
      if p.kind.StrRef? {
        assert ss[1..] == [ss[1]];
        assert CheckStmts(ss[1..], first.value) == CheckStmt(ss[1], first.value);
      }
    }
  }

  lemma {:induction false} CtxStep(ps: seq<Param>, n: nat, ctx: Ctx)
    requires n < |ps| && Hygienic(ps) && forall p <- ps :: !p.kind.COnly()
    requires CtxReady(ps, n, ctx)
    ensures CtxReady(ps, n + 1, AfterTyping(ps[n], ctx))
  {
    TempIsNotArgs(ps[n].name);
    var after := AfterTyping(ps[n], ctx);
    forall j | 0 <= j < n && Extracted(ps[j].kind)
      ensures ps[j].name in after && after[ps[j].name] == ctx[ps[j].name]
    {
      assert ps[j].name != ps[n].name;
    }
  }

  ghost predicate ChecksAs(ps: seq<Param>, n: nat, r: Option<Ctx>)
    requires n <= |ps| && forall p <- ps :: !p.kind.COnly()
  {
    if NarrowUpTo(ps, n) then r.Some? && CtxReady(ps, n, r.value) else r == None
  }

  lemma {:induction false} ExtractionChecks(ps: seq<Param>, n: nat, access: Access)
    requires n <= |ps| && Hygienic(ps) && forall p <- ps :: !p.kind.COnly()
    ensures ChecksAs(ps, n, CheckStmts(FixedStmts(ps, n, access), ENTRY_CTX))
  {
    hide ParamStmts, CheckStmt, AfterTyping, Hygienic;
    if n > 0 {
      ExtractionChecks(ps, n - 1, access);
      var before, more := FixedStmts(ps, n - 1, access), ParamStmts(ps[n - 1], n - 1, access);
      CheckAppend(before, more, ENTRY_CTX);
      var mid, after := CheckStmts(before, ENTRY_CTX), CheckStmts(before + more, ENTRY_CTX);
      if NarrowUpTo(ps, n - 1) {
        OneParamChecks(ps[n - 1], n - 1, access, mid.value);
        CtxStep(ps, n - 1, mid.value);
        assert ChecksAs(ps, n, after);
      } else {
        assert !NarrowUpTo(ps, n) && after == None;
      }
    }
  }

  ghost function CallCtx(ps: seq<Param>, ctx: Ctx): Ctx {
    if TailStmts(ps) == [] then ctx else ctx[ps[FixedCount(ps)].name := TVec]
  }

  /** What is in scope at the call: the fixed locals, the variadic local, and
      nothing for the parameters behind it. */
  ghost predicate ScopeAtCall(ps: seq<Param>, ctx: Ctx)
    requires forall p <- ps :: !p.kind.COnly()
  {
    var n := FixedCount(ps);
    && SliceInScope(ctx)
    && (forall j | 0 <= j < n && Extracted(ps[j].kind) :: ps[j].name in ctx && ctx[ps[j].name] == TyOf(ps[j].kind))
    && (n < |ps| && ps[n].kind.VecCmTypes? ==> ps[n].name in ctx && ctx[ps[n].name] == TVec)
    && (forall j | n < j < |ps| :: ps[j].name !in ctx)
  }

  lemma {:induction false} ScopeIsReady(ps: seq<Param>, ctx: Ctx)
    requires Hygienic(ps) && forall p <- ps :: !p.kind.COnly()
    requires CtxReady(ps, FixedCount(ps), ctx)
    ensures ScopeAtCall(ps, CallCtx(ps, ctx))
  {
    var n := FixedCount(ps);
    var after := CallCtx(ps, ctx);
    forall j | 0 <= j < n && Extracted(ps[j].kind)
      ensures ps[j].name in after && after[ps[j].name] == TyOf(ps[j].kind)
    {
      assert n < |ps| ==> ps[j].name != ps[n].name;
    }
    forall j | n < j < |ps| ensures ps[j].name !in after {
      LaterNameIsFree(ps, n, j);
      assert ps[n].name != ps[j].name;
    }
  }

  /** At the call, an argument expression has its declared type unless it names a
      local that nothing bound. */
  lemma {:induction false} CallArgTypes(ps: seq<Param>, access: Access, ctx: Ctx, k: nat)
    requires k < |ps| && forall p <- ps :: !p.kind.COnly()
    requires ScopeAtCall(ps, ctx)
    ensures TypeOf(CallArg(ps[k], k, access), ctx) == Some(TyOf(ps[k].kind)) <==>
            (k > FixedCount(ps) ==> !Extracted(ps[k].kind) && !ps[k].kind.VecCmTypes?)
  {
    if k < FixedCount(ps) {
      assert !ps[k].kind.IsVariadic();
    }
  }

  lemma {:induction false} NothingBoundMeans(ps: seq<Param>)
    ensures NothingBoundAfterVariadic(ps) <==>
            forall k | FixedCount(ps) < k < |ps| :: !Extracted(ps[k].kind) && !ps[k].kind.VecCmTypes?
  {
    var n := FixedCount(ps);
    if NothingBoundAfterVariadic(ps) && n < |ps| {
      assert ps[n].kind.IsVariadic();
    }
  }

  /** The whole statement part checks unless a fixed parameter is 128 bits wide. */
  lemma {:induction false} StmtsCheck(ps: seq<Param>, pre: seq<Stmt>, access: Access)
    requires Hygienic(ps) && forall p <- ps :: !p.kind.COnly()
    requires pre == [] || pre == [AssertArgCount(FixedCount(ps))]
    ensures var r := CheckStmts(pre + FixedStmts(ps, FixedCount(ps), access) + TailStmts(ps), ENTRY_CTX);
            if NarrowUpTo(ps, FixedCount(ps)) then r.Some? && ScopeAtCall(ps, r.value) else r == None
  {
    var n := FixedCount(ps);
    var fixed := FixedStmts(ps, n, access);
    CheckAppend(pre + fixed, TailStmts(ps), ENTRY_CTX);
    CheckAppend(pre, fixed, ENTRY_CTX);
    assert CheckStmts(pre, ENTRY_CTX) == Some(ENTRY_CTX);
    ExtractionChecks(ps, n, access);
    if NarrowUpTo(ps, n) {
      var mid := CheckStmts(fixed, ENTRY_CTX).value;
      assert CheckStmts(TailStmts(ps), mid) == Some(CallCtx(ps, mid));
      ScopeIsReady(ps, mid);
    }
  }

  lemma {:induction false} CompilesGiven(ps: seq<Param>, access: Access, ctx: Ctx)
    requires forall p <- ps :: !p.kind.COnly()
    requires forall k | 0 <= k < |ps| ::
               TypeOf(CallArg(ps[k], k, access), ctx) == Some(TyOf(ps[k].kind)) <==>
               (k > FixedCount(ps) ==> !Extracted(ps[k].kind) && !ps[k].kind.VecCmTypes?)
    requires NarrowUpTo(ps, FixedCount(ps))
    ensures (forall k | 0 <= k < |ps| :: TypeOf(CallArg(ps[k], k, access), ctx) == Some(TyOf(ps[k].kind))) <==>
            NoWideParam(ps) && NothingBoundAfterVariadic(ps)
  {
    NothingBoundMeans(ps);
    var n := FixedCount(ps);
    if NothingBoundAfterVariadic(ps) {
      forall p | p in ps ensures p.kind.Primitive? ==> !p.kind.prim.IsWide() {
        var k :| 0 <= k < |ps| && ps[k] == p;
        assert k > n ==> !Extracted(ps[k].kind);
      }
    }
  }

  /** Expression k and declared type k both belong to parameter k. */
  lemma {:induction false} CallLinesUp(e: ExportedFn, access: Access, callee: Callee)
    requires RustEntry(e)
    ensures var b := WrapperBody(e, access, callee);
            && |b.args| == |e.params| == |SymType(e).params|
            && (forall k | 0 <= k < |e.params| ::
                  b.args[k] == CallArg(e.params[k], k, access) && SymType(e).params[k] == TyOf(e.params[k].kind))
            && (WrapsAt(b.wrap, SymType(e).ret) <==> NoWideReturn(e.ret))
            && (!NarrowUpTo(e.params, FixedCount(e.params)) ==> !NoWideParam(e.params))
  {
    hide CallArg, TyOf, FixedStmts, TailStmts;
  }

  /** No local of the wrapper hides its callee or is called like a static. */
  ghost predicate NoneHidden(ps: seq<Param>, callee: Callee, scope: Scope) {
    forall c | c in scope && (c == callee || c.CachedStatic?) :: Visible(ps, c.Name())
  }

  lemma {:induction false} NamesResolveExactly(e: ExportedFn, access: Access, callee: Callee, scope: Scope)
    requires RustEntry(e) && callee in scope
    ensures var b := WrapperBody(e, access, callee);
            && b.callee == callee
            && forall ctx: Ctx | CheckStmts(b.stmts, ENTRY_CTX) == Some(ctx) ::
                 NamesResolve(b, scope, ctx.Keys) <==> NoneHidden(e.params, callee, scope)
  {
    var b := WrapperBody(e, access, callee);
    assert b.callee == callee;
    hide WrapperBody, Visible;
    forall c: Callee
      ensures Visible(e.params, c.Name()) <==> c.Name() !in {"args"} + Bound(b.stmts)
    {
      VisibleExactly(e, access, callee, c.Name());
    }
    NamesInScope(b.stmts, ENTRY_CTX, map[], false);
  }

  /** With the extracted locals in scope, the argument list has the declared types unless
      a parameter is too wide or lies unbound behind a variadic one. */
  lemma {:induction false} ArgsTypeCheck(e: ExportedFn, access: Access, callee: Callee, ctx: Ctx)
    requires RustEntry(e) && ScopeAtCall(e.params, ctx) && NarrowUpTo(e.params, FixedCount(e.params))
    ensures var args, types := WrapperBody(e, access, callee).args, SymType(e).params;
            && |args| == |types|
            && ((forall k | 0 <= k < |args| :: TypeOf(args[k], ctx) == Some(types[k])) <==>
                NoWideParam(e.params) && NothingBoundAfterVariadic(e.params))
  {
    var ps := e.params;
    CallLinesUp(e, access, callee);
    assert forall p <- ps :: !p.kind.COnly();
    hide *;
    forall k | 0 <= k < |ps| {
      CallArgTypes(ps, access, ctx, k);
    }
    CompilesGiven(ps, access, ctx);
  }

  /** The checker's four questions. */
  lemma {:induction false} CompilesMeans(b: Body, scope: Scope)
    requires b.callee in scope
    ensures var r := CheckStmts(b.stmts, ENTRY_CTX);
            Compiles(b, scope) <==>
            && r.Some? && NamesResolve(b, scope, r.value.Keys)
            && |b.args| == |scope[b.callee].sig.params|
            && (forall k | 0 <= k < |b.args| :: TypeOf(b.args[k], r.value) == Some(scope[b.callee].sig.params[k]))
            && WrapsAt(b.wrap, scope[b.callee].sig.ret)
  {
    hide CheckStmts, NamesResolve, TypeOf, WrapsAt;
  }

  /** The emitted wrapper compiles exactly when no parameter and no return is 128 bits
      wide, nothing behind a variadic parameter needs a local, and no local takes the
      name of what is called (for an in-process wrapper, of the companion). */
  lemma {:induction false} CompilesExactly(e: ExportedFn, access: Access, callee: Callee, scope: Scope)
    requires RustEntry(e) && Hygienic(e.params)
    requires callee in scope && scope[callee].sig == SymType(e)
    ensures var b := WrapperBody(e, access, callee);
            Compiles(b, scope) <==>
            && NoWideParam(e.params) && NoWideReturn(e.ret) && NothingBoundAfterVariadic(e.params)
            && NoneHidden(e.params, callee, scope)
  {
    var ps := e.params;
    var b := WrapperBody(e, access, callee);
    var pre := if access.Checked? then [] else CountAssertion(ps);
    assert b.stmts == pre + FixedStmts(ps, FixedCount(ps), access) + TailStmts(ps) && b.callee == callee;
    CallLinesUp(e, access, callee);
    StmtsCheck(ps, pre, access);
    NamesResolveExactly(e, access, callee, scope);
    CompilesMeans(b, scope);
    hide *;
    if NarrowUpTo(ps, FixedCount(ps)) {
      ArgsTypeCheck(e, access, callee, CheckStmts(b.stmts, ENTRY_CTX).value);
    }
  }

  // ------------------------------------------------------------ return hints

  /** Return-variant hint of an entry whose `_cm` signature is explicit. */
  function HintFromCmRet(r: CmRet): Option<string> {
    match r
    case Void => Some("None")
    case ReturnsPrimitive(kind) => Some(kind.VariantName())
    case ReturnsString => Some("String")
    case _ => None
  }

  /** Whenever such a hint is advertised, every completed call of any of the four
      wrappers returns exactly that variant. */
  lemma {:induction false} HintIsTheReturnedVariant(e: ExportedFn, access: Access, callee: Callee, scope: Scope,
                                 kernel: Kernel, args: seq<CmValue>, debug: bool)
    requires RustEntry(e)
    requires e.retVariantHint == HintFromCmRet(e.ret) && e.retVariantHint.Some?
    ensures var b := WrapperBody(e, access, callee);
            var r := Run(b, scope, kernel, args, debug);
            r.Done? ==> r.value.Variant() == e.retVariantHint.value
  {
    hide CallOf, FixedStmts, TailStmts, CallArgs, CountAssertion;
    var b := WrapperBody(e, access, callee);
    assert b.wrap == WrapOf(e.ret);
  }
}
