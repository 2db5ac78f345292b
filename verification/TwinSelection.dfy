/** The runtime installs an unchecked twin for a node when it can prove, from the
    argspec and the return hints, what every argument slot will hold.  Over every
    run, with the argument lists the buffers of `ArgLayout` really hold, a selected
    twin makes exactly the call its checked wrapper would make. */
module TwinSelection {
  import opened Common
  import opened KernelTypes
  import opened WrapperCode
  import opened RustRenderers
  import opened RustWrappers
  import Graph = GraphLoader
  import IndexText
  import Signatures
  import Layout = ArgLayout

  /** Where an argument slot gets its value for each task. Vacant slots are those of
      barriers and the trailing ones left by conditional arguments. */
  datatype Source =
    | Static(value: CmValue)
    | RuntimeIndex
    | RuntimeWorkers
    | Rotating(values: seq<CmValue>)
    | OrderingOnly
    | Vacant
    | FromResult(pred: nat, indexes: seq<int>, grouped: bool)

  datatype NodeEntry = NodeEntry(name: string, func: string, factor: nat, slots: seq<Source>)

  /** A registered Rust kernel, by its entry and the callee its wrappers use. */
  datatype Func = Func(entry: ExportedFn, callee: Callee)
  datatype Runtime = Runtime(nodes: seq<NodeEntry>, funcs: map<string, Func>, scope: Scope)

  ghost predicate WellFormed(rt: Runtime) {
    forall name | name in rt.funcs ::
      var e := rt.funcs[name].entry;
      && RustEntry(e) && VariadicLast(e.params) && Hygienic(e.params) && NoWideParam(e.params)
      && rt.funcs[name].callee in rt.scope && Visible(e.params, rt.funcs[name].callee.Name())
  }

  function RetVariant(rt: Runtime, func: string): Option<string> {
    if func in rt.funcs then rt.funcs[func].entry.retVariantHint else None
  }

  function Argspec(rt: Runtime, func: string): Option<seq<string>> {
    if func in rt.funcs then EntryArgspec(rt.funcs[func].entry) else None
  }

  /** The variant a slot is proven to hold at every task, or None. */
  function ProvableVariant(rt: Runtime, source: Source): Option<string> {
    match source
    case OrderingOnly => Some("None")
    case Vacant => Some("None")
    case FromResult(pred, _, grouped) =>
      if grouped || pred >= |rt.nodes| then None else RetVariant(rt, rt.nodes[pred].func)
    case RuntimeIndex => Some("Usize")
    case RuntimeWorkers => Some("Usize")
    case Rotating(values) =>
      if values != [] && forall v <- values :: v.Variant() == values[0].Variant()
      then Some(values[0].Variant()) else None
    case Static(value) => Some(value.Variant())
  }

  /** The slot's argument as the graph loader has it; object 2 stands for the buffers
      with several values. */
  function ArgOf(source: Source): Graph.Arg {
    match source
    case Static(_) => Graph.Arg(Graph.OtherValue, false, None)
    case RuntimeIndex => Graph.Arg(Graph.Ref(0), false, None)
    case RuntimeWorkers => Graph.Arg(Graph.Ref(1), false, None)
    case Rotating(_) => Graph.Arg(Graph.Ref(2), false, None)
    case OrderingOnly => Graph.Arg(Graph.Dep(0), false, None)
    case Vacant => Graph.Arg(Graph.Barrier(""), false, None)
    case FromResult(pred, indexes, grouped) =>
      Graph.Arg(Graph.Res(pred), false, Some(Graph.Predecessor(pred, indexes, if grouped then Some(2) else None)))
  }

  function LayoutOf(node: NodeEntry): seq<Graph.Arg> {
    seq(|node.slots|, i requires 0 <= i < |node.slots| => ArgOf(node.slots[i]))
  }

  const BUFFERS: set<nat> := {2}

  /** The argument list keeps its length from task to task. */
  predicate Stable(node: NodeEntry) {
    Layout.TemplateStable(Layout.ResPreds(LayoutOf(node), |node.slots|, node.factor)) && node.name != "$network"
  }

  predicate Selected(rt: Runtime, id: nat)
    requires id < |rt.nodes|
  {
    var node := rt.nodes[id];
    && Stable(node)
    && Argspec(rt, node.func).Some?
    && var spec := Argspec(rt, node.func).value;
    && FixedSlots(spec) <= |node.slots|
    && forall i | 0 <= i < FixedSlots(spec) ::
         spec[i] == "*" || ProvableVariant(rt, node.slots[i]) == Some(spec[i])
  }

  /** The selection pass over the node cache. */
  method SelectUncheckedWrappers(rt: Runtime) returns (usesUnchecked: seq<bool>)
    ensures |usesUnchecked| == |rt.nodes|
    ensures forall id | 0 <= id < |rt.nodes| :: usesUnchecked[id] <==> Selected(rt, id)
  {
    hide Stable, Argspec, FixedSlots, ProvableVariant;
    usesUnchecked := [];
    for id := 0 to |rt.nodes|
      invariant |usesUnchecked| == id
      invariant forall k | 0 <= k < id :: usesUnchecked[k] <==> Selected(rt, k)
    {
      var node := rt.nodes[id];
      var spec := Argspec(rt, node.func);
      var chosen := false;
      if Stable(node) && spec.Some? {
        var fixed := FixedSlots(spec.value);
        if fixed <= |node.slots| {
          chosen := true;
          for i := 0 to fixed
            invariant chosen <==> forall k | 0 <= k < i ::
              spec.value[k] == "*" || ProvableVariant(rt, node.slots[k]) == Some(spec.value[k])
          {
            if spec.value[i] != "*" && ProvableVariant(rt, node.slots[i]) != Some(spec.value[i]) {
              chosen := false;
            }
          }
        }
      }
      usesUnchecked := usesUnchecked + [chosen];
    }
  }

  // ------------------------------------------------------------------- runs

  /** One task of a node: its number, the tasks that used the thread's buffer before it,
      what each entry of the buffer stood for, and what the kernel answered. */
  datatype Task = Task(node: nat, before: seq<nat>, number: nat, value: Layout.Cell -> CmValue, raw: Raw)

  type Results = seq<set<CmValue>>

  /** The buffer handed to the kernel: patched in place for stable nodes, filled afresh
      for the others. */
  ghost function BufferFor(node: NodeEntry, before: seq<nat>, number: nat): seq<Layout.Cell> {
    if Stable(node) then Layout.Reused(LayoutOf(node), BUFFERS, |node.slots|, node.factor, before + [number])
    else Layout.Fresh(LayoutOf(node), BUFFERS, |node.slots|, node.factor, number)
  }

  ghost function ArgsOf(rt: Runtime, t: Task): seq<CmValue>
    requires t.node < |rt.nodes|
  {
    var buf := BufferFor(rt.nodes[t.node], t.before, t.number);
    seq(|buf|, i requires 0 <= i < |buf| => t.value(buf[i]))
  }

  /** What the runtime puts into an entry, by its origin. Grouped collection rewraps
      what it fetches. */
  ghost predicate Means(node: NodeEntry, cell: Layout.Cell, v: CmValue, results: Results) {
    match cell
    case Nothing => v == NoneValue
    case Instance(_) => v.Prim? && v.kind == Usize
    case Workers => v.Prim? && v.kind == Usize
    case Static(i) => i < |node.slots| && node.slots[i].Static? ==> v == node.slots[i].value
    case BufferValue(i, _) => i < |node.slots| && node.slots[i].Rotating? ==> v in node.slots[i].values
    case Fetched(i, _, _) =>
      i < |node.slots| && node.slots[i].FromResult? && !node.slots[i].grouped ==>
        node.slots[i].pred < |results| && v in results[node.slots[i].pred]
  }

  /** The value in one slot is one its source can deliver. */
  ghost predicate Delivers(source: Source, v: CmValue, results: Results) {
    match source
    case Static(value) => v == value
    case RuntimeIndex => v.Prim? && v.kind == Usize
    case RuntimeWorkers => v.Prim? && v.kind == Usize
    case Rotating(values) => v in values
    case OrderingOnly => v == NoneValue
    case Vacant => v == NoneValue
    case FromResult(pred, indexes, grouped) =>
      if indexes == [] then v == NoneValue
      else !grouped ==> pred < |results| && v in results[pred]
  }

  function BodyOf(rt: Runtime, id: nat): Body
    requires id < |rt.nodes| && rt.nodes[id].func in rt.funcs && RustEntry(rt.funcs[rt.nodes[id].func].entry)
  {
    var f := rt.funcs[rt.nodes[id].func];
    if Selected(rt, id) then UncheckedBody(f.entry, f.callee) else CheckedBody(f.entry, f.callee)
  }

  /** A wrapper either spells its hint in its own signature or calls a companion
      that wraps into the hinted variant. */
  ghost predicate Honest(f: Func, raw: Raw) {
    || f.entry.retVariantHint == HintFromCmRet(f.entry.ret)
    || (f.entry.ret.ReturnsCmTypes? &&
        (raw.RawCm? && f.entry.retVariantHint.Some? ==> raw.v.Variant() == f.entry.retVariantHint.value))
  }

  ghost predicate Possible(rt: Runtime, t: Task, results: Results)
  {
    && t.node < |rt.nodes| && |results| == |rt.nodes|
    && rt.nodes[t.node].func in rt.funcs
    && Honest(rt.funcs[rt.nodes[t.node].func], t.raw)
    && var node := rt.nodes[t.node];
    && var buf := BufferFor(node, t.before, t.number);
    && forall i | 0 <= i < |buf| :: Means(node, buf[i], t.value(buf[i]), results)
  }

  /** A stable node's list has one value per slot, each from its own source; an empty
      index list fetches nothing and leaves the template's None behind. */
  lemma {:induction false} SlotsDeliver(rt: Runtime, t: Task, results: Results, i: nat)
    requires Possible(rt, t, results) && Stable(rt.nodes[t.node]) && i < |rt.nodes[t.node].slots|
    ensures |ArgsOf(rt, t)| == |rt.nodes[t.node].slots|
    ensures Delivers(rt.nodes[t.node].slots[i], ArgsOf(rt, t)[i], results)
  {
    var node := rt.nodes[t.node];
    Layout.ReusedCells(LayoutOf(node), BUFFERS, |node.slots|, node.factor, t.before + [t.number], i);
    var cell := Layout.OwnCell(LayoutOf(node)[i], i, 0, BUFFERS, node.factor, t.number);
    assert BufferFor(node, t.before, t.number)[i] == cell;
    OwnCellIs(node, i, t.number);
    hide Layout.Reused, Layout.OwnCell, Stable;
  }

  lemma {:induction false} OwnCellIs(node: NodeEntry, i: nat, number: nat)
    requires i < |node.slots|
    ensures Layout.OwnCell(LayoutOf(node)[i], i, 0, BUFFERS, node.factor, number) ==
            match node.slots[i]
            case Static(_) => Layout.Static(i)
            case RuntimeIndex => Layout.Instance(number)
            case RuntimeWorkers => Layout.Workers
            case Rotating(_) => Layout.BufferValue(i, number)
            case OrderingOnly => Layout.Nothing
            case Vacant => Layout.Nothing
            case FromResult(_, indexes, _) => if indexes == [] then Layout.Nothing else Layout.Fetched(i, 0, number)
  {
  }

  ghost function Outcomes(rt: Runtime, t: Task, debug: bool): Outcome<CmValue>
    requires WellFormed(rt) && t.node < |rt.nodes| && rt.nodes[t.node].func in rt.funcs
  {
    Run(BodyOf(rt, t.node), rt.scope, (_: Invocation) => t.raw, ArgsOf(rt, t), debug)
  }

  /** A completed task stores its result under its node. */
  ghost function After(rt: Runtime, before: Results, t: Task, debug: bool): (results: Results)
    requires WellFormed(rt) && |before| == |rt.nodes|
    ensures |results| == |rt.nodes|
  {
    if t.node < |rt.nodes| && rt.nodes[t.node].func in rt.funcs && Outcomes(rt, t, debug).Done?
    then before[t.node := before[t.node] + {Outcomes(rt, t, debug).value}]
    else before
  }

  /** Results stored by the first n tasks, per node. */
  ghost function Stored(rt: Runtime, tasks: seq<Task>, n: nat, debug: bool): (results: Results)
    requires WellFormed(rt) && n <= |tasks|
    ensures |results| == |rt.nodes|
  {
    if n == 0 then seq(|rt.nodes|, _ => {})
    else After(rt, Stored(rt, tasks, n - 1, debug), tasks[n - 1], debug)
  }

  /** Each of the first n tasks only consumes results that earlier tasks stored. */
  ghost predicate IsRun(rt: Runtime, tasks: seq<Task>, n: nat, debug: bool)
    requires WellFormed(rt) && n <= |tasks|
  {
    n > 0 ==>
      && IsRun(rt, tasks, n - 1, debug)
      && Possible(rt, tasks[n - 1], Stored(rt, tasks, n - 1, debug))
  }

  lemma {:induction false} RunPrefix(rt: Runtime, tasks: seq<Task>, n: nat, k: nat, debug: bool)
    requires WellFormed(rt) && k < n <= |tasks| && IsRun(rt, tasks, n, debug)
    ensures IsRun(rt, tasks, k, debug) && Possible(rt, tasks[k], Stored(rt, tasks, k, debug))
  {
    hide Possible, Stored, WellFormed;
    if k < n - 1 {
      RunPrefix(rt, tasks, n - 1, k, debug);
    }
  }

  ghost predicate HintsHold(rt: Runtime, results: Results) {
    forall id, v | 0 <= id < |rt.nodes| && id < |results| && v in results[id] ::
      RetVariant(rt, rt.nodes[id].func).Some? ==> Some(v.Variant()) == RetVariant(rt, rt.nodes[id].func)
  }

  lemma {:induction false} ResultKeepsHint(rt: Runtime, t: Task, debug: bool)
    requires WellFormed(rt) && t.node < |rt.nodes| && rt.nodes[t.node].func in rt.funcs
    requires Honest(rt.funcs[rt.nodes[t.node].func], t.raw)
    requires Outcomes(rt, t, debug).Done? && RetVariant(rt, rt.nodes[t.node].func).Some?
    ensures Some(Outcomes(rt, t, debug).value.Variant()) == RetVariant(rt, rt.nodes[t.node].func)
  {
    var f := rt.funcs[rt.nodes[t.node].func];
    var b := BodyOf(rt, t.node);
    assert b.wrap == WrapOf(f.entry.ret);
    assert RustEntry(f.entry);
    var kernel := (_: Invocation) => t.raw;
    RunUnfolds(b, rt.scope, kernel, ArgsOf(rt, t), debug);
    assert Outcomes(rt, t, debug) == Run(b, rt.scope, kernel, ArgsOf(rt, t), debug);
    assert Outcomes(rt, t, debug) == Finish(b.wrap, t.raw);
    hide Outcomes, Run, CallOf, ArgsOf, BodyOf, WellFormed, RustEntry, Stable, Selected;
    FinishKeepsHint(f, t.raw);
  }

  lemma {:induction false} FinishKeepsHint(f: Func, raw: Raw)
    requires !f.entry.ret.COnly() && Honest(f, raw) && f.entry.retVariantHint.Some?
    requires Finish(WrapOf(f.entry.ret), raw).Done?
    ensures Finish(WrapOf(f.entry.ret), raw).value.Variant() == f.entry.retVariantHint.value
  {
    hide PrimKind.VariantName;
  }

  lemma {:induction false} HintsSurviveATask(rt: Runtime, before: Results, t: Task, debug: bool)
    requires WellFormed(rt) && |before| == |rt.nodes|
    requires HintsHold(rt, before) && Possible(rt, t, before)
    ensures HintsHold(rt, After(rt, before, t, debug))
  {
    if Outcomes(rt, t, debug).Done? {
      var r := Outcomes(rt, t, debug).value;
      var hint := RetVariant(rt, rt.nodes[t.node].func);
      if hint.Some? {
        ResultKeepsHint(rt, t, debug);
      }
      var after := before[t.node := before[t.node] + {r}];
      assert hint.Some? ==> Some(r.Variant()) == hint;
      assert HintsHold(rt, after);
    }
  }

  /** What is stored always carries the advertised variant. */
  lemma {:induction false} StoredResultsKeepHints(rt: Runtime, tasks: seq<Task>, n: nat, debug: bool)
    requires WellFormed(rt) && n <= |tasks| && IsRun(rt, tasks, n, debug)
    ensures HintsHold(rt, Stored(rt, tasks, n, debug))
  {
    if n > 0 {
      StoredResultsKeepHints(rt, tasks, n - 1, debug);
      HintsSurviveATask(rt, Stored(rt, tasks, n - 1, debug), tasks[n - 1], debug);
    }
  }

  /** No required slot of a node reads a predecessor through an empty index list
      (a range such as "3-1", or one that ends in a variable holding 0). */
  predicate ReadsSomething(rt: Runtime, id: nat)
    requires id < |rt.nodes|
  {
    var node := rt.nodes[id];
    Argspec(rt, node.func).Some? ==>
      var spec := Argspec(rt, node.func).value;
      forall i | 0 <= i < FixedSlots(spec) && i < |node.slots| && spec[i] != "*" ::
        !(node.slots[i].FromResult? && node.slots[i].indexes == [])
  }

  lemma {:induction false} ProvenSlotHoldsIt(rt: Runtime, source: Source, v: CmValue, results: Results, word: string)
    requires HintsHold(rt, results) && |results| == |rt.nodes|
    requires Delivers(source, v, results)
    requires !(source.FromResult? && source.indexes == [])
    requires ProvableVariant(rt, source) == Some(word)
    ensures v.Variant() == word
  {
  }

  lemma {:induction false} SelectedArgsAccepted(rt: Runtime, t: Task, results: Results)
    requires WellFormed(rt) && Possible(rt, t, results) && HintsHold(rt, results)
    requires Selected(rt, t.node) && ReadsSomething(rt, t.node)
    ensures Accepts(Argspec(rt, rt.nodes[t.node].func).value, ArgsOf(rt, t))
  {
    var node := rt.nodes[t.node];
    var spec := Argspec(rt, node.func).value;
    if FixedSlots(spec) > 0 {
      SlotsDeliver(rt, t, results, 0);
    }
    forall i | 0 <= i < FixedSlots(spec) && spec[i] != "*" ensures ArgsOf(rt, t)[i].Variant() == spec[i] {
      SlotsDeliver(rt, t, results, i);
      ProvenSlotHoldsIt(rt, node.slots[i], ArgsOf(rt, t)[i], results, spec[i]);
    }
  }

  /** In every run, a selected twin whose required slots read something makes the
      very call the checked wrapper would have made, and no undefined behaviour. */
  lemma {:induction false} SelectedTwinsAreSafe(rt: Runtime, tasks: seq<Task>, k: nat, debug: bool)
    requires WellFormed(rt) && k < |tasks| && IsRun(rt, tasks, |tasks|, debug)
    requires tasks[k].node < |rt.nodes| && Selected(rt, tasks[k].node) && ReadsSomething(rt, tasks[k].node)
    ensures var t := tasks[k];
            var f := rt.funcs[rt.nodes[t.node].func];
            var call := CallOf(BodyOf(rt, t.node), rt.scope, ArgsOf(rt, t), debug);
            && call.Done?
            && call == CallOf(CheckedBody(f.entry, f.callee), rt.scope, ArgsOf(rt, t), debug)
  {
    var t := tasks[k];
    var f := rt.funcs[rt.nodes[t.node].func];
    RunPrefix(rt, tasks, |tasks|, k, debug);
    StoredResultsKeepHints(rt, tasks, k, debug);
    SelectedArgsAccepted(rt, t, Stored(rt, tasks, k, debug));
    UncheckedTwinAgrees(f.entry, f.callee, rt.scope, ArgsOf(rt, t), debug);
  }

  /** The condition is needed: the selection pass looks at the predecessor's hint
      and not at the index list, so a selected node whose required slot reads
      nothing never makes its call at all. */
  lemma {:induction false} EmptyReadBreaksTheTwin(rt: Runtime, t: Task, results: Results, debug: bool)
    requires WellFormed(rt) && Possible(rt, t, results)
    requires Selected(rt, t.node) && !ReadsSomething(rt, t.node)
    ensures !CallOf(BodyOf(rt, t.node), rt.scope, ArgsOf(rt, t), debug).Done?
  {
    StarvedListIsRefused(rt, t, results);
    TwinOf(rt, t.node);
    hide *;
    var f := rt.funcs[rt.nodes[t.node].func];
    UncheckedTwinAgrees(f.entry, f.callee, rt.scope, ArgsOf(rt, t), debug);
  }

  lemma {:induction false} StarvedListIsRefused(rt: Runtime, t: Task, results: Results)
    requires WellFormed(rt) && Possible(rt, t, results)
    requires Selected(rt, t.node) && !ReadsSomething(rt, t.node)
    ensures EntryArgspec(rt.funcs[rt.nodes[t.node].func].entry).Some?
    ensures !Accepts(EntryArgspec(rt.funcs[rt.nodes[t.node].func].entry).value, ArgsOf(rt, t))
  {
    var i := StarvedSlot(rt, t.node);
    TwinOf(rt, t.node);
    SlotsDeliver(rt, t, results, i);
    hide *;
    var e := rt.funcs[rt.nodes[t.node].func].entry;
    RequiredWordIsNotNone(e, i);
    RefusedAt(EntryArgspec(e).value, ArgsOf(rt, t), i);
  }

  lemma {:induction false} RefusedAt(spec: seq<string>, args: seq<CmValue>, i: nat)
    requires i < FixedSlots(spec) && i < |args| && spec[i] != "*" && spec[i] != "None" && args[i] == NoneValue
    ensures !Accepts(spec, args)
  {
    assert args[i].Variant() == "None";
    hide FixedSlots;
  }

  lemma {:induction false} StarvedSlot(rt: Runtime, id: nat) returns (i: nat)
    requires WellFormed(rt) && id < |rt.nodes| && Selected(rt, id) && !ReadsSomething(rt, id)
    ensures rt.nodes[id].func in rt.funcs && EntryArgspec(rt.funcs[rt.nodes[id].func].entry).Some?
    ensures var spec := EntryArgspec(rt.funcs[rt.nodes[id].func].entry).value;
            i < FixedSlots(spec) && i < |rt.nodes[id].slots| && spec[i] != "*"
    ensures Stable(rt.nodes[id]) && rt.nodes[id].slots[i].FromResult? && rt.nodes[id].slots[i].indexes == []
    ensures forall v, results :: Delivers(rt.nodes[id].slots[i], v, results) ==> v == NoneValue
  {
    hide Stable, EntryArgspec, FixedSlots, WellFormed;
    var node := rt.nodes[id];
    assert Argspec(rt, node.func) == EntryArgspec(rt.funcs[node.func].entry);
    var spec := EntryArgspec(rt.funcs[node.func].entry).value;
    i :| 0 <= i < FixedSlots(spec) && i < |node.slots| && spec[i] != "*" &&
         node.slots[i].FromResult? && node.slots[i].indexes == [];
  }

  lemma {:induction false} TwinOf(rt: Runtime, id: nat)
    requires WellFormed(rt) && id < |rt.nodes| && Selected(rt, id)
    ensures rt.nodes[id].func in rt.funcs
    ensures var f := rt.funcs[rt.nodes[id].func];
            && RustEntry(f.entry) && VariadicLast(f.entry.params) && Hygienic(f.entry.params) &&
                 NoWideParam(f.entry.params)
            && f.callee in rt.scope && Visible(f.entry.params, f.callee.Name())
            && BodyOf(rt, id) == UncheckedBody(f.entry, f.callee)
  {
    hide Stable, EntryArgspec, UncheckedBody, CheckedBody, RustEntry, Visible;
  }

  lemma {:induction false} RequiredWordIsNotNone(e: ExportedFn, i: nat)
    requires RustEntry(e) && VariadicLast(e.params)
    requires i < FixedSlots(EntryArgspec(e).value)
    ensures EntryArgspec(e).value[i] != "None"
  {
    ArgspecCountsFixed(e);
    assert EntryArgspec(e).value[i] == SpecWord(e.params[i].kind);
    hide EntryArgspec, FixedSlots, RustEntry, VariadicLast;
    WordIsNotNone(e.params[i].kind);
  }

  lemma {:induction false} WordIsNotNone(kind: ParamKind)
    requires !kind.COnly()
    ensures SpecWord(kind) != "None"
  {
    if kind.Primitive? {
      KindOfItsName(kind.prim);
      assert KindOfVariant("None").None?;
    }
    hide PrimKind.VariantName, KindOfVariant;
  }

  // ------------------------------------------------- hints, from the source text

  /** The kernel is the collected entry of a source function. */
  ghost predicate CollectedFrom(f: Func, src: Signatures.SrcFn) {
    && Signatures.TryExtract(src).Some?
    && f.entry == Signatures.TryExtract(src).value.(hasBulkCm := f.entry.hasBulkCm)
  }

  /** A companion the macro wrote answers with the variant it wraps into. */
  ghost predicate AsCompiled(src: Signatures.SrcFn, raw: Raw) {
    !src.noMangle && raw.RawCm? && Signatures.CompanionVariant(src.output).Some? ==>
      raw.v.Variant() == Signatures.CompanionVariant(src.output).value
  }

  predicate HintIsRight(src: Signatures.SrcFn) {
    src.noMangle || src.output.None? || !Signatures.QualifiedScalar(src.output.value)
  }

  /** Whatever a kernel answers, its hint holds, if and only if it is an explicit companion
      or its return type is not a scalar or String behind a path. */
  lemma {:induction false} HonestExactly(f: Func, src: Signatures.SrcFn)
    requires CollectedFrom(f, src)
    ensures (forall raw | AsCompiled(src, raw) :: Honest(f, raw)) <==> HintIsRight(src)
  {
    HintOfSource(f, src);
    hide CollectedFrom, Signatures.RetHintFromOriginal, Signatures.CompanionVariant, Signatures.QualifiedScalar,
         HintFromCmRet;
    if !HintIsRight(src) {
      var wrapped := RawCm(AnAny());
      assert AsCompiled(src, wrapped) && !Honest(f, wrapped);
    }
  }

  function AnAny(): (v: CmValue)
    ensures v.Any? && v.Variant() == "Any"
  {
    Any(false, VecOf("f32", 0, 0))
  }

  lemma {:induction false} HintOfSource(f: Func, src: Signatures.SrcFn)
    requires CollectedFrom(f, src)
    ensures src.noMangle ==> f.entry.retVariantHint == HintFromCmRet(f.entry.ret)
    ensures !src.noMangle ==> f.entry.ret.ReturnsCmTypes? && HintFromCmRet(f.entry.ret) == None
    ensures !src.noMangle && HintIsRight(src) && f.entry.retVariantHint.Some? ==>
              f.entry.retVariantHint == Signatures.CompanionVariant(src.output)
    ensures !HintIsRight(src) ==> Signatures.CompanionVariant(src.output) == Some("Any")
    ensures !HintIsRight(src) ==> f.entry.retVariantHint.Some? && f.entry.retVariantHint != Some("Any")
  {
    Signatures.HintMatchesCompanion(src.output);
    if !HintIsRight(src) {
      QualifiedIsAny(src.output.value);
    }
    hide Signatures.CompanionVariant, Signatures.QualifiedScalar, Signatures.ExtractParams, Signatures.StripSuffix,
         Signatures.ClassifyCmReturn, Signatures.MarkVariadic;
  }

  lemma {:induction false} QualifiedIsAny(ty: Signatures.SrcType)
    requires Signatures.QualifiedScalar(ty)
    ensures Signatures.CompanionVariant(Some(ty)) == Some("Any")
    ensures Signatures.RetHintFromOriginal(Some(ty)).Some?
  {
    Signatures.HintMatchesCompanion(Some(ty));
    assert Signatures.PrimKindFromStr("CmTypes") == None;
    hide Signatures.PrimKindFromStr, PrimKind.VariantName;
  }

  // ----------------------------------------------------- a wrong hint happens

  /** `fn make() -> std::string::String` and `fn take(s: String)`, both annotated */
  const MAKE := Signatures.SrcFn("make", false, true, false, false, [],
                                 Some(Signatures.Path(["std", "string", "String"], [])))
  const TAKE := Signatures.SrcFn("take", false, true, false, false,
                                 [Signatures.SrcParam(Some("s"), Signatures.Path(["String"], []))], None)

  const MAKE_ENTRY := ExportedFn("make_cm", "make", [], ReturnsCmTypes, Some("String"), Rust, [], false)
  const TAKE_ENTRY := ExportedFn("take_cm", "take", [Param("s", OwnedString)], ReturnsCmTypes, Some("None"), Rust, [],
                                 false)

  /** Node b passes what node a made. */
  const MISLABELLED := Runtime(
                         [NodeEntry("a", "make", 1, []), NodeEntry("b", "take", 1, [FromResult(0, [0], false)])],
                         map["make" := Func(MAKE_ENTRY, CachedStatic("MAKE_CM_SYM")),
                             "take" := Func(TAKE_ENTRY, CachedStatic("TAKE_CM_SYM"))],
                         map[CachedStatic("MAKE_CM_SYM") := Target("make_cm", Sig([], RCmTypes)),
                             CachedStatic("TAKE_CM_SYM") := Target("take_cm", Sig([TString], RCmTypes))])

  lemma {:induction false} EntriesOfSource()
    ensures Signatures.TryExtract(MAKE) == Some(MAKE_ENTRY) && Signatures.TryExtract(TAKE) == Some(TAKE_ENTRY)
    ensures !HintIsRight(MAKE) && HintIsRight(TAKE)
  {
    assert TAKE.inputs[1..] == [] && Signatures.ExtractParams([], false) == [];
    assert Signatures.ExtractParams(TAKE.inputs, false) == [Param("s", OwnedString)];
    Signatures.QualifiedStringHintIsWrong();
    assert "make" + "_cm" == "make_cm" && "take" + "_cm" == "take_cm";
  }

  lemma {:induction false} MislabelledIsWellFormed()
    ensures WellFormed(MISLABELLED)
  {
    var rt := MISLABELLED;
    forall name | name in rt.funcs
      ensures var f := rt.funcs[name];
              && RustEntry(f.entry) && VariadicLast(f.entry.params) && Hygienic(f.entry.params) &&
                   NoWideParam(f.entry.params)
              && f.callee in rt.scope && Visible(f.entry.params, f.callee.Name())
    {
      assert "TAKE_CM_SYM" != "s";
      assert FixedCount(rt.funcs[name].entry.params) <= 1;
    }
  }

  lemma {:induction false} MislabelledIsSelected()
    ensures Selected(MISLABELLED, 1) && ReadsSomething(MISLABELLED, 1) && Stable(MISLABELLED.nodes[1])
  {
    var rt := MISLABELLED;
    var node := rt.nodes[1];
    assert Layout.ResPreds(LayoutOf(node), 0, 1) == [];
    assert Stable(node);
    var e := rt.funcs["take"].entry;
    assert Argspec(rt, "take") == EntryArgspec(e) && EntryArgspec(e).Some?;
    var spec := EntryArgspec(e).value;
    assert |spec| == 1 && spec[0] == SpecWord(OwnedString) == "String";
    assert FixedSlots(spec) == 1;
    assert ProvableVariant(rt, node.slots[0]) == Some("String");
  }

  lemma {:induction false} MakeBody(b: Body)
    requires b == BodyOf(MISLABELLED, 0)
    ensures b.stmts == [] && b.args == [] && b.wrap == PassThrough && b.callee == CachedStatic("MAKE_CM_SYM")
    ensures b.callee in MISLABELLED.scope
  {
    hide Selected;
  }

  /** A body without parameters just calls, and hands a CmTypes on. */
  lemma {:induction false} PlainCall(b: Body, scope: Scope, args: seq<CmValue>, v: CmValue)
    requires b.stmts == [] && b.args == [] && b.wrap == PassThrough
    requires b.callee == CachedStatic("MAKE_CM_SYM") && b.callee in scope
    ensures Run(b, scope, (_: Invocation) => RawCm(v), args, false) == Done(v)
  {
    var kernel := (_: Invocation) => RawCm(v);
    assert "MAKE_CM_SYM" != "args";
    CallUnfolds(b, scope, args, false);
    RunUnfolds(b, scope, kernel, args, false);
    hide CallOf, Run;
  }

  /** What node a stores when its companion wraps the String into an Any. */
  lemma {:induction false} MakeStoresAnAny(t: Task)
    requires t.node == 0 && t.raw == RawCm(AnAny()) && WellFormed(MISLABELLED)
    ensures After(MISLABELLED, [{}, {}], t, false) == [{AnAny()}, {}]
  {
    var rt, b := MISLABELLED, BodyOf(MISLABELLED, 0);
    assert rt.nodes[0].func in rt.funcs && |rt.nodes| == 2;
    MakeBody(b);
    hide BodyOf, ArgsOf, AnAny, WellFormed, Run;
    PlainCall(b, rt.scope, ArgsOf(rt, t), AnAny());
    assert Outcomes(rt, t, false) == Done(AnAny());
    var empty: Results := [{}, {}];
    assert empty[0] + {AnAny()} == {AnAny()};
  }

  lemma {:induction false} TakeOfAny(scope: Scope, v: CmValue)
    requires scope == MISLABELLED.scope && v.Any?
    ensures CallOf(BodyOf(MISLABELLED, 1), scope, [v], false) == Undefined
  {
    MislabelledIsSelected();
    var b := BodyOf(MISLABELLED, 1);
    assert b == UncheckedBody(TAKE_ENTRY, CachedStatic("TAKE_CM_SYM")) && b.callee in scope;
    assert TAKE_ENTRY.params[1..] == [] && FixedCount(TAKE_ENTRY.params) == 1;
    var extract := LetOwned("s", 0, Unchecked);
    assert FixedStmts(TAKE_ENTRY.params, 1, Unchecked) == FixedStmts(TAKE_ENTRY.params, 0, Unchecked) + [extract];
    assert b.stmts == [AssertArgCount(1), extract];
    hide Selected, BodyOf, UncheckedBody, FixedStmts;
    var env: Env := map["args" := VSlice([v])];
    assert [AssertArgCount(1), extract][1..] == [extract];
    assert ExecStmts([extract], env, false) == Undefined;
    CallUnfolds(b, scope, [v], false);
  }

  /** A wrong hint defeats the selection: both kernels answer as the macro compiled them,
      node a's Any is stored under the hint "String", the twin is selected for node b, and
      its call is undefined behaviour. */
  lemma {:induction false} WrongHintHappens() returns (first: Task, second: Task, results: Results)
    ensures Signatures.TryExtract(MAKE) == Some(MAKE_ENTRY) && Signatures.TryExtract(TAKE) == Some(TAKE_ENTRY)
    ensures AsCompiled(MAKE, first.raw) && AsCompiled(TAKE, second.raw) && first.node == 0 && second.node == 1
    ensures WellFormed(MISLABELLED) && results == After(MISLABELLED, [{}, {}], first, false)
    ensures Selected(MISLABELLED, 1) && ReadsSomething(MISLABELLED, 1) && Possible(MISLABELLED, second, results)
    ensures CallOf(BodyOf(MISLABELLED, 1), MISLABELLED.scope, ArgsOf(MISLABELLED, second), false) == Undefined
  {
    EntriesOfSource();
    MislabelledIsWellFormed();
    MislabelledIsSelected();
    first := Task(0, [], 0, (cell: Layout.Cell) => NoneValue, RawCm(AnAny()));
    hide *;
    MakeStoresAnAny(first);
    results := After(MISLABELLED, [{}, {}], first, false);
    second := TakeTask(results);
    TakeOfAny(MISLABELLED.scope, AnAny());
    WrapsAny(first.raw);
  }

  lemma {:induction false} WrapsAny(raw: Raw)
    requires raw == RawCm(AnAny())
    ensures AsCompiled(MAKE, raw)
  {
    Signatures.QualifiedStringHintIsWrong();
    hide Signatures.CompanionVariant;
  }

  lemma {:induction false} TakeTask(results: Results) returns (t: Task)
    requires results == [{AnAny()}, {}]
    ensures Possible(MISLABELLED, t, results) && AsCompiled(TAKE, t.raw) && t.node == 1
    ensures ArgsOf(MISLABELLED, t) == [AnAny()]
  {
    var v := AnAny();
    t := Task(1, [], 0, (cell: Layout.Cell) => if cell.Fetched? then v else NoneValue, RawCm(NoneValue));
    MislabelledIsSelected();
    var node := MISLABELLED.nodes[1];
    Layout.ReusedCells(LayoutOf(node), BUFFERS, 1, 1, [] + [0], 0);
    OwnCellIs(node, 0, 0);
    var buf := BufferFor(node, [], 0);
    hide Layout.Reused, Layout.OwnCell, Stable, AnAny;
    assert |buf| == 1 && buf[0] == Layout.Fetched(0, 0, 0);
  }

  // ------------------------------------------------------ an empty read happens

  /** `fn src() -> usize` and `fn use(n: usize)`; node b reads node a at some indexes. */
  function Reading(indexes: seq<int>): Runtime {
    Runtime(
      [NodeEntry("a", "src", 4, []), NodeEntry("b", "use", 4, [FromResult(0, indexes, false)])],
      map["src" := Func(ExportedFn("src_cm", "src", [], ReturnsPrimitive(Usize), Some("Usize"), Rust, [], false),
                        CachedStatic("SRC_CM_SYM")),
          "use" := Func(ExportedFn("use_cm", "use", [Param("n", Primitive(Usize))], Void, Some("None"), Rust, [],
            false),
                        CachedStatic("USE_CM_SYM"))],
      map[CachedStatic("SRC_CM_SYM") := Target("src_cm", Sig([], RScalar(Usize))),
          CachedStatic("USE_CM_SYM") := Target("use_cm", Sig([TScalar(Usize)], RUnit))])
  }

  lemma {:induction false} ReadingIsWellFormed(indexes: seq<int>)
    ensures WellFormed(Reading(indexes))
  {
    var rt := Reading(indexes);
    forall name | name in rt.funcs
      ensures var f := rt.funcs[name];
              && RustEntry(f.entry) && VariadicLast(f.entry.params) && Hygienic(f.entry.params) &&
                   NoWideParam(f.entry.params)
              && f.callee in rt.scope && Visible(f.entry.params, f.callee.Name())
    {
      assert "USE_CM_SYM" != "n";
      assert FixedCount(rt.funcs[name].entry.params) <= 1;
    }
  }

  /** The graph loader accepts "3-1", and it selects nothing. */
  lemma {:induction false} BackwardRangeIsEmpty(objs: IndexText.Objects)
    ensures IndexText.Parsed("3-1", objs) == IndexText.Ok([])
  {
    assert "3" + "-" + "1" == "3-1" && "-" == ['-'];
    assert IndexText.ParseIsize("3") == Some(3) && IndexText.ParseIsize("1") == Some(1);
    IndexText.RangeTextParses("3", "1", objs);
  }

  /** With that text the twin is selected for node b, whose slot holds None whatever node
      a answered; in a release build the call is undefined behaviour. */
  lemma {:induction false} EmptyReadHappens(objs: IndexText.Objects) returns (rt: Runtime, t: Task, results: Results)
    ensures IndexText.Parsed("3-1", objs).Ok? && rt == Reading(IndexText.Parsed("3-1", objs).value)
    ensures WellFormed(rt) && Possible(rt, t, results) && results[0] != {} && t.node == 1
    ensures Selected(rt, t.node) && !ReadsSomething(rt, t.node)
    ensures CallOf(BodyOf(rt, t.node), rt.scope, ArgsOf(rt, t), false) == Undefined
  {
    BackwardRangeIsEmpty(objs);
    rt := Reading([]);
    ReadingIsWellFormed([]);
    StarvedNodeIsSelected();
    t, results := StarvedTask();
    UseOfNone(rt.scope);
    hide *;
  }

  lemma {:induction false} StarvedTask() returns (t: Task, results: Results)
    ensures Possible(Reading([]), t, results) && t.node == 1 && results[0] != {}
    ensures ArgsOf(Reading([]), t) == [NoneValue]
  {
    var seven := Prim(Usize, 7);
    t := Task(1, [], 0, (cell: Layout.Cell) => if cell.Nothing? then NoneValue else seven, RawUnit);
    results := [{seven}, {}];
    assert seven in results[0];
    StarvedNodeIsSelected();
    var node := Reading([]).nodes[1];
    Layout.ReusedCells(LayoutOf(node), BUFFERS, 1, 4, [] + [0], 0);
    OwnCellIs(node, 0, 0);
    var buf := BufferFor(node, [], 0);
    hide Layout.Reused, Layout.OwnCell, Stable;
    assert |buf| == 1 && buf[0] == Layout.Nothing;
  }

  lemma {:induction false} StarvedNodeIsSelected()
    ensures Selected(Reading([]), 1) && !ReadsSomething(Reading([]), 1) && Stable(Reading([]).nodes[1])
  {
    var rt := Reading([]);
    var node := rt.nodes[1];
    assert Layout.ResPreds(LayoutOf(node), 0, 4) == [];
    assert Stable(node);
    var e := rt.funcs["use"].entry;
    assert Argspec(rt, "use") == EntryArgspec(e) && EntryArgspec(e).Some?;
    var spec := EntryArgspec(e).value;
    assert |spec| == 1 && spec[0] == SpecWord(Primitive(Usize)) == "Usize";
    assert FixedSlots(spec) == 1;
    assert ProvableVariant(rt, node.slots[0]) == Some("Usize");
  }

  lemma {:induction false} UseOfNone(scope: Scope)
    requires scope == Reading([]).scope
    ensures CallOf(BodyOf(Reading([]), 1), scope, [NoneValue], false) == Undefined
  {
    StarvedNodeIsSelected();
    var e := Reading([]).funcs["use"].entry;
    var b := BodyOf(Reading([]), 1);
    assert b == UncheckedBody(e, CachedStatic("USE_CM_SYM")) && b.callee in scope;
    assert e.params[1..] == [] && FixedCount(e.params) == 1;
    var extract := LetScalar("n", 0, "Usize", Unchecked);
    assert FixedStmts(e.params, 1, Unchecked) == FixedStmts(e.params, 0, Unchecked) + [extract];
    assert b.stmts == [AssertArgCount(1), extract];
    hide Selected, Reading, BodyOf, UncheckedBody, FixedStmts;
    ExtractFromNone(extract);
    CallUnfolds(b, scope, [NoneValue], false);
  }

  lemma {:induction false} ExtractFromNone(extract: Stmt)
    requires extract == LetScalar("n", 0, "Usize", Unchecked)
    ensures ExecStmts([AssertArgCount(1), extract], map["args" := VSlice([NoneValue])], false) == Undefined
  {
    var env: Env := map["args" := VSlice([NoneValue])];
    assert [AssertArgCount(1), extract][1..] == [extract];
    assert ExecStmts([extract], env, false) == Undefined;
  }
}
