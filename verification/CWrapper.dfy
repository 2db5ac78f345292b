/** The wrapper emitted for a C entry: what it unpacks, what it passes to the C
    function, and when the plain and the closure form agree. */
module CWrapper {
  import opened Common
  import opened KernelTypes
  import opened WrapperCode
  import opened CHeader

  datatype CStmt =
    | LetPrim(name: string, idx: nat, kind: PrimKind)               // match args[idx] { variant(x) => x as rt, .. }
    | LetText(name: string, idx: nat)                               // match &args[idx] { String(x) => .. }
    | LetCString(name: string, source: string)                      // CString::new(source).unwrap_or_else(..)
    | LetHandle(name: string, idx: nat)                             // args[idx].with_any(|h: &OpaqueHandle| h.0)
    | LetArray(ptr: string, len: string, idx: nat, elem: string)    // args[idx].with_any(|v: &Vec<elem>| ..)
    | LetLen(len: string, idx: nat, elem: string)                   // args[idx].with_any(|v| v.len())
    | LetHandles(idx: nat)                                          // __handles collected from args[idx..]

  datatype CArg = CLocal(name: string) | CStrPtr(name: string) | ClosurePtr | HandlesPtr | HandlesLen

  datatype CallForm =
    | Direct(args: seq<CArg>)
    | WithMut(idx: nat, elem: string, args: seq<CArg>)   // args[idx].with_any_mut(|v: &mut Vec<elem>| call)

  datatype CBody = CBody(stmts: seq<CStmt>, call: CallForm, ret: CmRet)

  datatype MutInfo = MutInfo(idx: nat, elem: string, lenParam: string)
  datatype Extraction = Extraction(pre: seq<CStmt>, callArgs: seq<CArg>, mutInfo: Option<MutInfo>)

  function ElemRustType(cType: string): string {
    if cType == "float" then "f32"
    else if cType == "double" then "f64"
    else if cType == "int" || cType == "int32_t" then "i32"
    else if cType == "uint32_t" || cType == "unsigned int" then "u32"
    else if cType == "int64_t" then "i64"
    else if cType == "uint64_t" then "u64"
    else if IsSize(cType) then "usize"
    else "[f32; 2]"
  }

  /** The element type of an array parameter, without a leading `const`. */
  function RustElem(elem: string): string {
    ElemRustType(TrimBlanks(TrimConst(elem)))
  }

  function TrimConst(s: string): string {
    if "const" <= s then TrimConst(s[5..]) else s
  }

  function ExtractionOf(p: Param, idx: nat): Extraction
    requires !p.kind.RustOnly()
  {
    match p.kind
    case Primitive(kind) => Extraction([LetPrim(p.name, idx, kind)], [CLocal(p.name)], None)
    case StrRef =>
      Extraction([LetText(p.name + "_s", idx), LetCString(p.name + "_c", p.name + "_s")], [CStrPtr(p.name + "_c")],
        None)
    case OpaquePtr => Extraction([LetHandle(p.name + "_ptr", idx)], [CLocal(p.name + "_ptr")], None)
    case ArrayPtr(elem, len) =>
      Extraction([LetArray(p.name + "_ptr", len, idx, RustElem(elem))], [CLocal(p.name + "_ptr"), CLocal(len)], None)
    case MutArrayPtr(elem, len) =>
      Extraction([LetLen(len, idx, RustElem(elem))], [ClosurePtr, CLocal(len)], Some(MutInfo(idx, RustElem(elem), len)))
    case SliceCmTypes => Extraction([LetHandles(idx)], [HandlesPtr, HandlesLen], None)
  }

  /** A pointer list takes all remaining arguments: the counter is parked at
      usize::MAX (and wraps, should anything follow). */
  function NextIdx(p: Param, idx: nat): nat {
    if p.kind.SliceCmTypes? then USIZE_MAX else (idx + 1) % (USIZE_MAX + 1)
  }

  function ArgIdx(e: ExportedFn, n: nat): nat
    requires n <= |e.params|
  {
    if n == 0 then 0
    else if e.params[n - 1].name in e.autoParams then ArgIdx(e, n - 1)
    else NextIdx(e.params[n - 1], ArgIdx(e, n - 1))
  }

  function Extractions(e: ExportedFn, n: nat): seq<Extraction>
    requires CEntry(e) && n <= |e.params|
  {
    if n == 0 then []
    else if e.params[n - 1].name in e.autoParams then Extractions(e, n - 1)
    else Extractions(e, n - 1) + [ExtractionOf(e.params[n - 1], ArgIdx(e, n - 1))]
  }

  function LastMut(exts: seq<Extraction>): Option<MutInfo> {
    if exts == [] then None
    else if exts[|exts| - 1].mutInfo.Some? then exts[|exts| - 1].mutInfo
    else LastMut(exts[..|exts| - 1])
  }

  function PreLines(exts: seq<Extraction>): seq<CStmt> {
    if exts == [] then [] else PreLines(exts[..|exts| - 1]) + exts[|exts| - 1].pre
  }

  function FlatArgs(exts: seq<Extraction>): seq<CArg> {
    if exts == [] then [] else FlatArgs(exts[..|exts| - 1]) + exts[|exts| - 1].callArgs
  }

  /** The closure form: every mutable array contributes the closure's own vector
      and the length name of the one mutable array the closure was opened for. */
  function ClosureArgs(exts: seq<Extraction>, len: string): seq<CArg> {
    if exts == [] then []
    else
      var last := exts[|exts| - 1];
      ClosureArgs(exts[..|exts| - 1], len) + (if last.mutInfo.Some? then [ClosurePtr, CLocal(len)] else last.callArgs)
  }

  function CWrapperBody(e: ExportedFn): CBody
    requires CEntry(e)
  {
    var exts := Extractions(e, |e.params|);
    CBody(PreLines(exts),
          match LastMut(exts)
          case None => Direct(FlatArgs(exts))
          case Some(m) => WithMut(m.idx, m.elem, ClosureArgs(exts, m.lenParam)),
          e.ret)
  }

  method RenderCEntryWrapper(e: ExportedFn) returns (b: CBody)
    requires CEntry(e)
    ensures b == CWrapperBody(e)
  {
    var argIdx := 0;
    var mutArrayParam: Option<MutInfo> := None;
    var extractions: seq<Extraction> := [];
    for i := 0 to |e.params|
      invariant argIdx == ArgIdx(e, i)
      invariant extractions == Extractions(e, i)
      invariant mutArrayParam == LastMut(extractions)
    {
      var param := e.params[i];
      if param.name in e.autoParams {
        continue;
      }
      assert param in e.params;
      var ext := ExtractionOf(param, argIdx);
      assert (extractions + [ext])[..|extractions|] == extractions;
      extractions := extractions + [ext];
      if ext.mutInfo.Some? {
        mutArrayParam := ext.mutInfo;
      }
      argIdx := NextIdx(param, argIdx);
    }
    var pre: seq<CStmt> := [];
    var flat: seq<CArg> := [];
    for i := 0 to |extractions|
      invariant pre == PreLines(extractions[..i]) && flat == FlatArgs(extractions[..i])
    {
      assert extractions[..i + 1][..i] == extractions[..i];
      pre := pre + extractions[i].pre;
      flat := flat + extractions[i].callArgs;
    }
    assert extractions[..|extractions|] == extractions;
    match mutArrayParam {
      case None =>
        b := CBody(pre, Direct(flat), e.ret);
      case Some(m) =>
        var inClosure: seq<CArg> := [];
        for i := 0 to |extractions|
          invariant inClosure == ClosureArgs(extractions[..i], m.lenParam)
        {
          assert extractions[..i + 1][..i] == extractions[..i];
          inClosure := inClosure + (if extractions[i].mutInfo.Some? then [ClosurePtr, CLocal(m.lenParam)]
            else extractions[i].callArgs);
        }
        b := CBody(pre, WithMut(m.idx, m.elem, inClosure), e.ret);
    }
  }

  // -------------------------------------------------- plain and closure form

  /** The closure form passes the flat list exactly when all mutable arrays use the
      closure's length, that is (names being distinct) when there is only one. */
  lemma {:induction false} ClosureIsFlat(exts: seq<Extraction>, len: string)
    requires forall x <- exts | x.mutInfo.Some? :: x.callArgs == [ClosurePtr, CLocal(x.mutInfo.value.lenParam)]
    ensures |ClosureArgs(exts, len)| == |FlatArgs(exts)|
    ensures ClosureArgs(exts, len) == FlatArgs(exts) <==>
            forall x <- exts | x.mutInfo.Some? :: x.mutInfo.value.lenParam == len
  {
    if exts != [] {
      var n := |exts| - 1;
      var before, last := exts[..n], exts[n];
      assert forall x <- exts :: x == last || x in before;
      assert last in exts && forall x <- before :: x in exts;
      ClosureIsFlat(before, len);
      var a, b := ClosureArgs(before, len), FlatArgs(before);
      var x := if last.mutInfo.Some? then [ClosurePtr, CLocal(len)] else last.callArgs;
      var y := last.callArgs;
      assert |x| == |y|;
      assert (a + x)[..|a|] == a && (b + y)[..|b|] == b && (a + x)[|a|..] == x && (b + y)[|b|..] == y;
      if last.mutInfo.Some? {
        assert x[1] == CLocal(len) && y[1] == CLocal(last.mutInfo.value.lenParam);
      }
    }
  }

  // --------------------------------------------------------------- execution

  datatype CVal =
    | VInt(kind: PrimKind, bits: int)
    | VCText(text: string)
    | VAddr(addr: int)
    | VBuf(buffer: int)
    | VAddrs(addrs: seq<int>)

  datatype CValue =
    | LInt(kind: PrimKind, bits: int)
    | LText(text: string)
    | LCText(text: string)
    | LAddr(addr: int)
    | LBuf(buffer: int)
    | LAddrs(addrs: seq<int>)
    | LArgs(items: seq<CmValue>)
    | LVec(buffer: int, len: nat)

  type CEnv = map<string, CValue>

  predicate ArgsAreThere(env: CEnv) {
    "args" in env && env["args"].LArgs?
  }

  /** C strings end at their first NUL; text that contains one is passed as "". */
  function CText(text: string): string {
    if '\0' in text then "" else text
  }

  predicate IsHandle(v: CmValue) {
    v.Any? && v.content.OpaqueHandle?
  }

  predicate IsVec(v: CmValue, elem: string) {
    v.Any? && v.content.VecOf? && v.content.elem == elem
  }

  predicate AllHandles(vs: seq<CmValue>) {
    forall i | 0 <= i < |vs| :: IsHandle(vs[i])
  }

  function Addrs(vs: seq<CmValue>): seq<int>
    requires AllHandles(vs)
  {
    seq(|vs|, i requires 0 <= i < |vs| => vs[i].content.addr)
  }

  function ExecC(s: CStmt, env: CEnv): Outcome<CEnv> {
    if !s.LetCString? && !ArgsAreThere(env) then Stuck
    else
      match s
      case LetPrim(name, idx, kind) =>
        var items := env["args"].items;
        if idx < |items| && items[idx].Variant() == kind.VariantName() && items[idx].Prim?
        then Done(env[name := LInt(kind, items[idx].bits)]) else Panic
      case LetText(name, idx) =>
        var items := env["args"].items;
        if idx < |items| && items[idx].Text? then Done(env[name := LText(items[idx].text)]) else Panic
      case LetCString(name, source) =>
        if source in env && env[source].LText? then Done(env[name := LCText(CText(env[source].text))]) else Stuck
      case LetHandle(name, idx) =>
        var items := env["args"].items;
        if idx < |items| && IsHandle(items[idx]) then Done(env[name := LAddr(items[idx].content.addr)]) else Panic
      case LetArray(ptr, len, idx, elem) =>
        var items := env["args"].items;
        if idx < |items| && IsVec(items[idx], elem)
        then Done(env[ptr := LBuf(items[idx].content.buffer)][len := LInt(Usize, items[idx].content.len)]) else Panic
      case LetLen(len, idx, elem) =>
        var items := env["args"].items;
        if idx < |items| && IsVec(items[idx], elem) then Done(env[len := LInt(Usize, items[idx].content.len)])
          else Panic
      case LetHandles(idx) =>
        var items := env["args"].items;
        if idx <= |items| && AllHandles(items[idx..])
        then Done(env["__handles" := LAddrs(Addrs(items[idx..]))]) else Panic
  }

  function ExecAllC(ss: seq<CStmt>, env: CEnv): Outcome<CEnv> {
    if ss == [] then Done(env)
    else
      var before :- ExecAllC(ss[..|ss| - 1], env);
      ExecC(ss[|ss| - 1], before)
  }

  function EvalC(a: CArg, env: CEnv): Option<CVal> {
    match a
    case CLocal(name) =>
      if name !in env then None
      else if env[name].LInt? then Some(VInt(env[name].kind, env[name].bits))
      else if env[name].LAddr? then Some(VAddr(env[name].addr))
      else if env[name].LBuf? then Some(VBuf(env[name].buffer))
      else None
    case CStrPtr(name) => if name in env && env[name].LCText? then Some(VCText(env[name].text)) else None
    case ClosurePtr => if "v" in env && env["v"].LVec? then Some(VBuf(env["v"].buffer)) else None
    case HandlesPtr =>
      if "__handles" in env && env["__handles"].LAddrs? then Some(VAddrs(env["__handles"].addrs)) else None
    case HandlesLen =>
      if "__handles" in env && env["__handles"].LAddrs? then Some(VInt(Usize, |env["__handles"].addrs|)) else None
  }

  function EvalAllC(cs: seq<CArg>, env: CEnv): Option<seq<CVal>> {
    if cs == [] then Some([])
    else
      match (EvalAllC(cs[..|cs| - 1], env), EvalC(cs[|cs| - 1], env))
      case (Some(vs), Some(v)) => Some(vs + [v])
      case _ => None
  }

  /** The values the wrapper hands to the C function. */
  function PassedValues(b: CBody, args: seq<CmValue>): Outcome<seq<CVal>> {
    var env :- ExecAllC(b.stmts, map["args" := LArgs(args)]);
    match b.call
    case Direct(cs) =>
      (match EvalAllC(cs, env) case Some(vs) => Done(vs) case None => Stuck)
    case WithMut(idx, elem, cs) =>
      if !ArgsAreThere(env) then Stuck
      else if !(idx < |env["args"].items| && IsVec(env["args"].items[idx], elem)) then Panic
      else
        var content := env["args"].items[idx].content;
        match EvalAllC(cs, env["v" := LVec(content.buffer, content.len)])
        case Some(vs) => Done(vs)
        case None => Stuck
  }

  // -------------------------------------------------------------- preconditions

  /** Names the extraction of one parameter introduces. */
  function NamesOf(p: Param): set<string> {
    match p.kind
    case StrRef => {p.name + "_s", p.name + "_c"}
    case OpaquePtr => {p.name + "_ptr"}
    case ArrayPtr(_, len) => {p.name + "_ptr", len}
    case MutArrayPtr(_, len) => {len}
    case SliceCmTypes => {"__handles"}
    case _ => {p.name}
  }

  /** No generated name clashes with another, with `args` or with the closure's `v`,
      and no kept parameter is also an absorbed length. */
  predicate HygienicC(e: ExportedFn) {
    && (forall i, j | 0 <= i < j < |e.params| :: NamesOf(e.params[i]) !! NamesOf(e.params[j]))
    && (forall p <- e.params :: "args" !in NamesOf(p) && "v" !in NamesOf(p) && p.name !in e.autoParams)
    && (forall p <- e.params :: p.kind.ArrayPtr? ==> p.name + "_ptr" != p.kind.lenParam)
  }

  predicate SliceLast(ps: seq<Param>) {
    forall i | 0 <= i < |ps| - 1 :: !ps[i].kind.SliceCmTypes?
  }

  predicate OneMutArray(ps: seq<Param>) {
    forall i, j | 0 <= i < j < |ps| :: !(ps[i].kind.MutArrayPtr? && ps[j].kind.MutArrayPtr?)
  }

  /** What slot k must hold for parameter k. */
  ghost predicate CSlotHolds(kind: ParamKind, k: nat, args: seq<CmValue>) {
    match kind
    case Primitive(prim) => k < |args| && args[k].Prim? && args[k].kind == prim
    case StrRef => k < |args| && args[k].Text?
    case OpaquePtr => k < |args| && IsHandle(args[k])
    case ArrayPtr(elem, _) => k < |args| && IsVec(args[k], RustElem(elem))
    case MutArrayPtr(elem, _) => k < |args| && IsVec(args[k], RustElem(elem))
    case SliceCmTypes => k <= |args| && AllHandles(args[k..])
    case _ => false
  }

  /** What the C function must receive for parameter k. */
  ghost function CParamValues(kind: ParamKind, k: nat, args: seq<CmValue>): seq<CVal>
    requires CSlotHolds(kind, k, args)
  {
    match kind
    case Primitive(prim) => [VInt(prim, args[k].bits)]
    case StrRef => [VCText(CText(args[k].text))]
    case OpaquePtr => [VAddr(args[k].content.addr)]
    case ArrayPtr(_, _) => [VBuf(args[k].content.buffer), VInt(Usize, args[k].content.len)]
    case MutArrayPtr(_, _) => [VBuf(args[k].content.buffer), VInt(Usize, args[k].content.len)]
    case SliceCmTypes => [VAddrs(Addrs(args[k..])), VInt(Usize, |args| - k)]
  }

  ghost predicate CSlotsHold(ps: seq<Param>, n: nat, args: seq<CmValue>)
    requires n <= |ps|
  {
    forall k | 0 <= k < n :: CSlotHolds(ps[k].kind, k, args)
  }

  /** Parameter after parameter, the k-th one read from the k-th argument. */
  ghost function Expected(ps: seq<Param>, n: nat, args: seq<CmValue>): seq<CVal>
    requires n <= |ps| && CSlotsHold(ps, n, args)
  {
    if n == 0 then [] else Expected(ps, n - 1, args) + CParamValues(ps[n - 1].kind, n - 1, args)
  }

  // ------------------------------------------------------------ the k-th argument

  /** The argument counter counts parameters, until a pointer list parks it. */
  lemma {:induction false} CounterCounts(e: ExportedFn, n: nat)
    requires HygienicC(e) && SliceLast(e.params) && n <= |e.params| <= USIZE_MAX
    ensures (n > 0 && e.params[n - 1].kind.SliceCmTypes?) || ArgIdx(e, n) == n
  {
    if n > 0 {
      CounterCounts(e, n - 1);
      assert e.params[n - 1] in e.params;
      assert n > 1 ==> !e.params[n - 2].kind.SliceCmTypes?;
    }
  }

  lemma {:induction false} KthParamReadsKthArgument(e: ExportedFn, n: nat)
    requires CEntry(e) && HygienicC(e) && SliceLast(e.params) && n <= |e.params| <= USIZE_MAX
    ensures |Extractions(e, n)| == n
    ensures forall k | 0 <= k < n :: Extractions(e, n)[k] == ExtractionOf(e.params[k], k)
  {
    hide ExtractionOf, ArgIdx, NextIdx, NamesOf;
    if n > 0 {
      KthParamReadsKthArgument(e, n - 1);
      CounterCounts(e, n - 1);
      assert e.params[n - 1] in e.params;
      assert n > 1 ==> !e.params[n - 2].kind.SliceCmTypes?;
    }
  }

  /** Parameter n - 1 contributes its own extraction, read at its own position. */
  lemma {:induction false} LastExtraction(e: ExportedFn, n: nat)
    requires CEntry(e) && HygienicC(e) && SliceLast(e.params) && 0 < n <= |e.params| <= USIZE_MAX
    ensures var p := e.params[n - 1];
            && !p.kind.RustOnly()
            && (p.kind.ArrayPtr? ==> p.name + "_ptr" != p.kind.lenParam)
            && PreLines(Extractions(e, n)) == PreLines(Extractions(e, n - 1)) + ExtractionOf(p, n - 1).pre
            && FlatArgs(Extractions(e, n)) == FlatArgs(Extractions(e, n - 1)) + ExtractionOf(p, n - 1).callArgs
  {
    hide ExtractionOf;
    KthParamReadsKthArgument(e, n);
    KthParamReadsKthArgument(e, n - 1);
    assert e.params[n - 1] in e.params;
    var exts := Extractions(e, n);
    assert exts[..n - 1] == Extractions(e, n - 1);
  }

  lemma {:induction false} SlotsHoldStep(ps: seq<Param>, n: nat, args: seq<CmValue>)
    requires 0 < n <= |ps|
    ensures CSlotsHold(ps, n, args) <==> CSlotsHold(ps, n - 1, args) && CSlotHolds(ps[n - 1].kind, n - 1, args)
  {
    hide CSlotHolds;
  }

  // ------------------------------------------------------------------ proofs

  ghost predicate LocalsOf(p: Param, k: nat, args: seq<CmValue>, env: CEnv)
    requires CSlotHolds(p.kind, k, args)
  {
    && NamesOf(p) <= env.Keys
    && match p.kind
       case Primitive(prim) => env[p.name] == LInt(prim, args[k].bits)
       case StrRef => env[p.name + "_c"] == LCText(CText(args[k].text))
       case OpaquePtr => env[p.name + "_ptr"] == LAddr(args[k].content.addr)
       case ArrayPtr(_, len) =>
         env[p.name + "_ptr"] == LBuf(args[k].content.buffer) && env[len] == LInt(Usize, args[k].content.len)
       case MutArrayPtr(_, len) => env[len] == LInt(Usize, args[k].content.len)
       case SliceCmTypes => env["__handles"] == LAddrs(Addrs(args[k..]))
  }

  ghost predicate CReady(ps: seq<Param>, n: nat, args: seq<CmValue>, env: CEnv)
    requires n <= |ps|
  {
    && "args" in env && env["args"] == LArgs(args)
    && CSlotsHold(ps, n, args)
    && forall k | 0 <= k < n :: LocalsOf(ps[k], k, args, env)
  }

  ghost predicate OnlyTouches(before: CEnv, after: CEnv, names: set<string>) {
    forall x | x in before && x !in names :: x in after && after[x] == before[x]
  }

  lemma {:induction false} ExecOneC(s: CStmt, env: CEnv)
    ensures ExecAllC([s], env) == ExecC(s, env)
  {
    assert [s][..0] == [];
  }

  lemma {:induction false} ExecAppendC(a: seq<CStmt>, b: seq<CStmt>, env: CEnv)
    ensures ExecAllC(a + b, env) ==
            match ExecAllC(a, env)
            case Done(mid) => ExecAllC(b, mid)
            case Panic => Panic
            case Undefined => Undefined
            case Stuck => Stuck
  {
    if b == [] {
      assert a + b == a;
    } else {
      assert (a + b)[..|a + b| - 1] == a + b[..|b| - 1];
      ExecAppendC(a, b[..|b| - 1], env);
    }
  }

  lemma {:induction false} OneExtractionRuns(p: Param, k: nat, args: seq<CmValue>, env: CEnv)
    requires !p.kind.RustOnly() && "args" in env && env["args"] == LArgs(args)
    requires p.kind.ArrayPtr? ==> p.name + "_ptr" != p.kind.lenParam
    ensures var r := ExecAllC(ExtractionOf(p, k).pre, env);
            if CSlotHolds(p.kind, k, args)
            then r.Done? && OnlyTouches(env, r.value, NamesOf(p)) && LocalsOf(p, k, args, r.value)
            else r == Panic
  {
    var pre := ExtractionOf(p, k).pre;
    if p.kind.Primitive? && k < |args| {
      VariantSelectsKind(args[k], p.kind.prim);
    }
    if p.kind.StrRef? {
      assert pre == [pre[0]] + [pre[1]];
      ExecAppendC([pre[0]], [pre[1]], env);
      ExecOneC(pre[0], env);
      if ExecC(pre[0], env).Done? {
        ExecOneC(pre[1], ExecC(pre[0], env).value);
      }
    } else {
      assert pre == [pre[0]];
      ExecOneC(pre[0], env);
    }
  }

  lemma {:induction false} FrameKeepsReady(e: ExportedFn, n: nat, args: seq<CmValue>, before: CEnv, after: CEnv)
    requires HygienicC(e) && n < |e.params|
    requires CReady(e.params, n, args, before) && OnlyTouches(before, after, NamesOf(e.params[n]))
    requires CSlotHolds(e.params[n].kind, n, args) && LocalsOf(e.params[n], n, args, after)
    ensures CReady(e.params, n + 1, args, after)
  {
    var ps := e.params;
    assert ps[n] in ps;
    forall k | 0 <= k < n ensures LocalsOf(ps[k], k, args, after) {
      assert NamesOf(ps[k]) !! NamesOf(ps[n]);
      assert forall x <- NamesOf(ps[k]) :: x in before && x in after && after[x] == before[x];
    }
  }

  lemma {:induction false} ExtractionsRun(e: ExportedFn, n: nat, args: seq<CmValue>)
    requires CEntry(e) && HygienicC(e) && SliceLast(e.params) && n <= |e.params| <= USIZE_MAX
    ensures var r := ExecAllC(PreLines(Extractions(e, n)), map["args" := LArgs(args)]);
            if CSlotsHold(e.params, n, args) then r.Done? && CReady(e.params, n, args, r.value) else r == Panic
  {
    hide *;
    var env: CEnv := map["args" := LArgs(args)];
    if n == 0 {
      NothingToRun(e, args);
    } else {
      ExtractionsRun(e, n - 1, args);
      LastExtraction(e, n);
      SlotsHoldStep(e.params, n, args);
      var p := e.params[n - 1];
      var before, own := PreLines(Extractions(e, n - 1)), ExtractionOf(p, n - 1).pre;
      ExecAppendC(before, own, env);
      if CSlotsHold(e.params, n - 1, args) {
        var mid := ExecAllC(before, env).value;
        ReadyHasArgs(e.params, n - 1, args, mid);
        OneExtractionRuns(p, n - 1, args, mid);
        if CSlotHolds(p.kind, n - 1, args) {
          FrameKeepsReady(e, n - 1, args, mid, ExecAllC(own, mid).value);
        }
      }
    }
  }

  lemma {:induction false} NothingToRun(e: ExportedFn, args: seq<CmValue>)
    requires CEntry(e)
    ensures CSlotsHold(e.params, 0, args)
    ensures var r := ExecAllC(PreLines(Extractions(e, 0)), map["args" := LArgs(args)]);
            r.Done? && CReady(e.params, 0, args, r.value)
  {
  }

  lemma {:induction false} ReadyHasArgs(ps: seq<Param>, n: nat, args: seq<CmValue>, env: CEnv)
    requires n <= |ps| && CReady(ps, n, args, env)
    ensures "args" in env && env["args"] == LArgs(args)
  {
  }

  lemma {:induction false} EvalAppendC(a: seq<CArg>, b: seq<CArg>, env: CEnv)
    requires EvalAllC(a, env).Some? && EvalAllC(b, env).Some?
    ensures EvalAllC(a + b, env) == Some(EvalAllC(a, env).value + EvalAllC(b, env).value)
  {
    if b == [] {
      assert a + b == a;
      assert EvalAllC(a, env).value + [] == EvalAllC(a, env).value;
    } else {
      assert (a + b)[..|a + b| - 1] == a + b[..|b| - 1];
      assert (a + b)[|a + b| - 1] == b[|b| - 1];
      EvalAppendC(a, b[..|b| - 1], env);
      var va, vb, v := EvalAllC(a, env).value, EvalAllC(b[..|b| - 1], env).value, EvalC(b[|b| - 1], env).value;
      assert va + (vb + [v]) == (va + vb) + [v];
    }
  }

  lemma {:induction false} OneParamDelivers(p: Param, k: nat, args: seq<CmValue>, env: CEnv)
    requires !p.kind.RustOnly() && CSlotHolds(p.kind, k, args) && LocalsOf(p, k, args, env)
    requires p.kind.MutArrayPtr? ==> "v" in env && env["v"] == LVec(args[k].content.buffer, args[k].content.len)
    ensures EvalAllC(ExtractionOf(p, k).callArgs, env) == Some(CParamValues(p.kind, k, args))
  {
    var cs := ExtractionOf(p, k).callArgs;
    if |cs| == 1 {
      EvalOne(cs[0], env);
      assert cs == [cs[0]];
    } else {
      EvalTwo(cs[0], cs[1], env);
      assert cs == [cs[0], cs[1]];
    }
  }

  lemma {:induction false} EvalOne(a: CArg, env: CEnv)
    requires EvalC(a, env).Some?
    ensures EvalAllC([a], env) == Some([EvalC(a, env).value])
  {
    assert [a][..0] == [];
    assert [] + [EvalC(a, env).value] == [EvalC(a, env).value];
  }

  lemma {:induction false} EvalTwo(a: CArg, b: CArg, env: CEnv)
    requires EvalC(a, env).Some? && EvalC(b, env).Some?
    ensures EvalAllC([a, b], env) == Some([EvalC(a, env).value, EvalC(b, env).value])
  {
    EvalOne(a, env);
    assert [a, b][..1] == [a];
    assert [EvalC(a, env).value] + [EvalC(b, env).value] == [EvalC(a, env).value, EvalC(b, env).value];
  }

  /** The environment of the call: the extracted locals, plus the closure's vector. */
  ghost predicate AtCall(ps: seq<Param>, args: seq<CmValue>, env: CEnv) {
    && CReady(ps, |ps|, args, env)
    && forall k | 0 <= k < |ps| && ps[k].kind.MutArrayPtr? ::
         "v" in env && env["v"] == LVec(args[k].content.buffer, args[k].content.len)
  }

  lemma {:induction false} AtCallLocals(ps: seq<Param>, args: seq<CmValue>, env: CEnv, k: nat)
    requires AtCall(ps, args, env) && k < |ps|
    ensures CSlotsHold(ps, k + 1, args) && CSlotHolds(ps[k].kind, k, args) && LocalsOf(ps[k], k, args, env)
    ensures ps[k].kind.MutArrayPtr? ==> "v" in env && env["v"] == LVec(args[k].content.buffer, args[k].content.len)
  {
    hide LocalsOf;
  }

  lemma {:induction false} FlatArgsDeliver(e: ExportedFn, n: nat, args: seq<CmValue>, env: CEnv)
    requires CEntry(e) && HygienicC(e) && SliceLast(e.params) && n <= |e.params| <= USIZE_MAX
    requires AtCall(e.params, args, env)
    ensures CSlotsHold(e.params, n, args)
    ensures EvalAllC(FlatArgs(Extractions(e, n)), env) == Some(Expected(e.params, n, args))
  {
    hide ExtractionOf, LocalsOf, CSlotHolds, CParamValues, EvalC, HygienicC, SliceLast, AtCall;
    if n > 0 {
      FlatArgsDeliver(e, n - 1, args, env);
      LastExtraction(e, n);
      AtCallLocals(e.params, args, env, n - 1);
      var p := e.params[n - 1];
      OneParamDelivers(p, n - 1, args, env);
      EvalAppendC(FlatArgs(Extractions(e, n - 1)), ExtractionOf(p, n - 1).callArgs, env);
    }
  }

  lemma {:induction false} LastMutIs(exts: seq<Extraction>)
    ensures match LastMut(exts)
            case None => forall x <- exts :: x.mutInfo.None?
            case Some(m) => exists k | 0 <= k < |exts| :: exts[k].mutInfo == Some(m)
  {
    if exts != [] {
      var before := exts[..|exts| - 1];
      LastMutIs(before);
      assert forall x <- exts :: x == exts[|exts| - 1] || x in before;
      if exts[|exts| - 1].mutInfo.None? && LastMut(before).Some? {
        var k :| 0 <= k < |before| && before[k].mutInfo == LastMut(before);
        assert exts[k].mutInfo == LastMut(exts);
      }
    }
  }

  /** What parameter k contributes to the call. */
  lemma {:induction false} ExtractionAt(e: ExportedFn, k: nat)
    requires CEntry(e) && HygienicC(e) && SliceLast(e.params) && k < |e.params| <= USIZE_MAX
    ensures var exts := Extractions(e, |e.params|);
            var kind := e.params[k].kind;
            && |exts| == |e.params|
            && exts[k] in exts
            && exts[k].mutInfo == (if kind.MutArrayPtr? then Some(MutInfo(k, RustElem(kind.elem), kind.lenParam))
                 else None)
            && (kind.MutArrayPtr? ==> exts[k].callArgs == [ClosurePtr, CLocal(kind.lenParam)])
  {
    hide Extractions, HygienicC, SliceLast;
    KthParamReadsKthArgument(e, |e.params|);
    assert e.params[k] in e.params;
    assert Extractions(e, |e.params|)[k] == ExtractionOf(e.params[k], k);
  }

  /** The mutable array the closure is opened for. */
  lemma {:induction false} ClosureTarget(e: ExportedFn) returns (k: nat)
    requires CEntry(e) && HygienicC(e) && SliceLast(e.params) && |e.params| <= USIZE_MAX
    requires LastMut(Extractions(e, |e.params|)).Some?
    ensures k < |e.params| && e.params[k].kind.MutArrayPtr?
    ensures LastMut(Extractions(e, |e.params|)).value ==
            MutInfo(k, RustElem(e.params[k].kind.elem), e.params[k].kind.lenParam)
  {
    var exts := Extractions(e, |e.params|);
    KthParamReadsKthArgument(e, |e.params|);
    LastMutIs(exts);
    k :| 0 <= k < |exts| && exts[k].mutInfo == LastMut(exts);
    ExtractionAt(e, k);
  }

  lemma {:induction false} NoTarget(e: ExportedFn)
    requires CEntry(e) && HygienicC(e) && SliceLast(e.params) && |e.params| <= USIZE_MAX
    requires LastMut(Extractions(e, |e.params|)).None?
    ensures forall k | 0 <= k < |e.params| :: !e.params[k].kind.MutArrayPtr?
  {
    LastMutIs(Extractions(e, |e.params|));
    forall k | 0 <= k < |e.params| ensures !e.params[k].kind.MutArrayPtr? {
      ExtractionAt(e, k);
    }
  }

  /** The call passes the flat argument list, one group per parameter in order,
      exactly when there is at most one mutable array. */
  lemma {:induction false} ClosureFormIsFlat(e: ExportedFn)
    requires CEntry(e) && HygienicC(e) && SliceLast(e.params) && |e.params| <= USIZE_MAX
    ensures CWrapperBody(e).call.args == FlatArgs(Extractions(e, |e.params|)) <==> OneMutArray(e.params)
  {
    var ps := e.params;
    var exts := Extractions(e, |ps|);
    if LastMut(exts).None? {
      NoTarget(e);
    } else {
      var k := ClosureTarget(e);
      var len := ps[k].kind.lenParam;
      MutArraysPassTheirLength(e);
      MutArraysBut(e, k);
      ClosureIsFlat(exts, len);
    }
  }

  lemma {:induction false} MutArraysPassTheirLength(e: ExportedFn)
    requires CEntry(e) && HygienicC(e) && SliceLast(e.params) && |e.params| <= USIZE_MAX
    ensures forall x <- Extractions(e, |e.params|) | x.mutInfo.Some? ::
              x.callArgs == [ClosurePtr, CLocal(x.mutInfo.value.lenParam)]
  {
    hide Extractions, ArgIdx, HygienicC, SliceLast, NamesOf;
    var exts := Extractions(e, |e.params|);
    KthParamReadsKthArgument(e, |e.params|);
    forall x | x in exts && x.mutInfo.Some? ensures x.callArgs == [ClosurePtr, CLocal(x.mutInfo.value.lenParam)] {
      var j :| 0 <= j < |exts| && x == exts[j];
      ExtractionAt(e, j);
    }
  }

  /** All mutable arrays share parameter k's length name exactly when k is the only one. */
  lemma {:induction false} MutArraysBut(e: ExportedFn, k: nat)
    requires CEntry(e) && HygienicC(e) && SliceLast(e.params) && k < |e.params| <= USIZE_MAX
    requires e.params[k].kind.MutArrayPtr?
    ensures (forall x <- Extractions(e, |e.params|) | x.mutInfo.Some? ::
            x.mutInfo.value.lenParam == e.params[k].kind.lenParam)
            <==> OneMutArray(e.params)
  {
    hide Extractions, ExtractionOf, ArgIdx, HygienicC, SliceLast, NamesOf;
    var ps := e.params;
    var exts := Extractions(e, |ps|);
    if OneMutArray(ps) {
      KthParamReadsKthArgument(e, |ps|);
      forall x | x in exts && x.mutInfo.Some? ensures x.mutInfo.value.lenParam == ps[k].kind.lenParam {
        var j :| 0 <= j < |exts| && x == exts[j];
        ExtractionAt(e, j);
        assert j == k;
      }
    } else {
      var i, j :| 0 <= i < j < |ps| && ps[i].kind.MutArrayPtr? && ps[j].kind.MutArrayPtr?;
      var other := if i == k then j else i;
      ExtractionAt(e, other);
      DistinctLengths(e, other, k);
    }
  }

  lemma {:induction false} DistinctLengths(e: ExportedFn, i: nat, j: nat)
    requires HygienicC(e) && i < |e.params| && j < |e.params|
    requires e.params[i].kind.MutArrayPtr? && e.params[j].kind.MutArrayPtr?
    ensures e.params[i].kind.lenParam == e.params[j].kind.lenParam <==> i == j
  {
    if i < j {
      assert NamesOf(e.params[i]) !! NamesOf(e.params[j]);
      assert e.params[i].kind.lenParam in NamesOf(e.params[i]);
    } else if j < i {
      assert NamesOf(e.params[j]) !! NamesOf(e.params[i]);
      assert e.params[i].kind.lenParam in NamesOf(e.params[i]);
    }
  }

  /** Opening the closure adds its vector and disturbs no extracted local. */
  lemma {:induction false} ClosureEnvIsReady(e: ExportedFn, k: nat, args: seq<CmValue>, env: CEnv)
    requires HygienicC(e) && OneMutArray(e.params) && k < |e.params| && e.params[k].kind.MutArrayPtr?
    requires CReady(e.params, |e.params|, args, env)
    ensures ArgsAreThere(env) && env["args"].items == args
    ensures k < |args| && IsVec(args[k], RustElem(e.params[k].kind.elem))
    ensures AtCall(e.params, args, env["v" := LVec(args[k].content.buffer, args[k].content.len)])
  {
    var ps := e.params;
    assert CSlotHolds(ps[k].kind, k, args);
    var inner := env["v" := LVec(args[k].content.buffer, args[k].content.len)];
    forall j | 0 <= j < |ps| ensures LocalsOf(ps[j], j, args, inner) {
      assert ps[j] in ps;
    }
    assert forall j | 0 <= j < |ps| && ps[j].kind.MutArrayPtr? :: j == k;
  }

  /** The C wrapper panics unless every argument has its parameter's shape; then it
      passes, parameter by parameter and in order, what the k-th argument holds. */
  lemma {:induction false} CWrapperIsExact(e: ExportedFn, args: seq<CmValue>)
    requires CEntry(e) && HygienicC(e) && SliceLast(e.params) && OneMutArray(e.params) && |e.params| <= USIZE_MAX
    ensures PassedValues(CWrapperBody(e), args) ==
            if CSlotsHold(e.params, |e.params|, args) then Done(Expected(e.params, |e.params|, args)) else Panic
  {
    hide ExtractionOf, Extractions, LocalsOf, NamesOf, CSlotHolds, CSlotsHold, Expected, HygienicC, SliceLast,
         OneMutArray,
         PreLines, FlatArgs, ClosureArgs, ExecAllC, EvalAllC;
    var ps := e.params;
    var b := CWrapperBody(e);
    ExtractionsRun(e, |ps|, args);
    ClosureFormIsFlat(e);
    if CSlotsHold(ps, |ps|, args) {
      var env := ExecAllC(b.stmts, map["args" := LArgs(args)]).value;
      if b.call.Direct? {
        NoTarget(e);
        FlatArgsDeliver(e, |ps|, args, env);
      } else {
        var k := ClosureTarget(e);
        ClosureEnvIsReady(e, k, args, env);
        FlatArgsDeliver(e, |ps|, args, env["v" := LVec(args[k].content.buffer, args[k].content.len)]);
      }
    }
  }
}
