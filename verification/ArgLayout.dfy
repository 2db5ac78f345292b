/** The argument buffer of a task: how the build-time cache and the per-task patches
    fill it, when every argument keeps its own slots, and when a buffer may be reused. */
module ArgLayout {
  import opened Common
  import opened IndexText
  import opened GraphLoader

  /** One entry of the buffer, by origin. `arg` counts the arguments that occupy
      slots; `task` is the task the entry was produced for. */
  datatype Cell =
    | Nothing
    | Static(arg: nat)
    | BufferValue(arg: nat, task: nat)
    | Instance(task: nat)
    | Workers
    | Fetched(arg: nat, k: nat, task: nat)

  datatype ResPred = ResPred(isDep: bool, indexCount: nat, nodeFactor: nat)

  datatype ArgCache = ArgCache(
    args: seq<Cell>,
    bufferRefs: seq<nat>,
    rtIdxs: seq<nat>,
    rtWorkers: seq<nat>,
    resIndexes: seq<nat>,
    resPreds: seq<ResPred>)

  // ------------------------------------------------------------- build time

  predicate IsBufferRef(a: Arg, many: set<nat>) {
    a.type_.Ref? && a.type_.id > 1 && a.type_.id in many
  }

  predicate IsRtIdx(a: Arg) {
    a.type_ == Ref(0)
  }

  predicate IsRtWorkers(a: Arg) {
    a.type_ == Ref(1)
  }

  predicate IsFetched(a: Arg) {
    a.type_.Res? || a.type_.Dep?
  }

  predicate IsStatic(a: Arg, many: set<nat>) {
    a.type_.OtherValue? || a.type_.NoValue? || (a.type_.Ref? && a.type_.id > 1 && a.type_.id !in many)
  }

  function TemplateCell(a: Arg, arg: nat, many: set<nat>): Cell {
    if IsStatic(a, many) then Static(arg) else Nothing
  }

  function IndexCount(a: Arg): nat {
    if a.predecessor.Some? then |a.predecessor.value.indexes| else 0
  }

  function PredOf(a: Arg, factor: nat): ResPred {
    ResPred(a.type_.Dep?, if a.type_.Dep? then 0 else IndexCount(a), factor)
  }

  /** The four kinds of slot that are filled per task. */
  datatype Role = PerBuffer | PerInstance | WorkerCount | Result

  predicate Plays(a: Arg, role: Role, many: set<nat>) {
    match role
    case PerBuffer => IsBufferRef(a, many)
    case PerInstance => IsRtIdx(a)
    case WorkerCount => IsRtWorkers(a)
    case Result => IsFetched(a)
  }

  /** Positions among the first n arguments that play a role, ascending. */
  function Positions(layout: seq<Arg>, n: nat, role: Role, many: set<nat>): (ps: seq<nat>)
    requires n <= |layout|
    ensures forall i :: i in ps <==> 0 <= i < n && Plays(layout[i], role, many)
  {
    if n == 0 then []
    else Positions(layout, n - 1, role, many) + if Plays(layout[n - 1], role, many) then [n - 1] else []
  }

  function Nothings(n: nat): seq<Cell> {
    seq(n, i => Nothing)
  }

  /** The cache after the first n slot-occupying arguments; `size` is the number of
      all arguments, conditional ones included. */
  ghost predicate CacheUpTo(c: ArgCache, layout: seq<Arg>, n: nat, size: nat, many: set<nat>)
    requires n <= |layout|
  {
    && |c.args| == size
    && (forall i | 0 <= i < size :: c.args[i] == if i < n then TemplateCell(layout[i], i, many) else Nothing)
    && c.bufferRefs == Positions(layout, n, PerBuffer, many)
    && c.rtIdxs == Positions(layout, n, PerInstance, many)
    && c.rtWorkers == Positions(layout, n, WorkerCount, many)
    && c.resIndexes == Positions(layout, n, Result, many)
  }

  lemma {:induction false} OccupyingGrows(args: seq<Arg>, a: Arg)
    ensures Occupying(args + [a]) == if a.conditional then Occupying(args) else Occupying(args) + [a]
  {
    if args == [] {
      assert args + [a] == [a] && [a][1..] == [];
    } else {
      assert (args + [a])[0] == args[0] && (args + [a])[1..] == args[1..] + [a];
      OccupyingGrows(args[1..], a);
    }
  }

  lemma {:induction false} OccupyingStep(args: seq<Arg>, i: nat)
    requires i < |args|
    ensures Occupying(args[..i + 1]) == if args[i].conditional then Occupying(args[..i])
            else Occupying(args[..i]) + [args[i]]
  {
    assert args[..i + 1] == args[..i] + [args[i]];
    OccupyingGrows(args[..i], args[i]);
  }

  lemma {:induction false} OccupyingIsShort(args: seq<Arg>)
    ensures |Occupying(args)| <= |args|
  {
    if args != [] {
      OccupyingIsShort(args[1..]);
    }
  }

  lemma {:induction false} PositionsStable(layout: seq<Arg>, a: Arg, n: nat, role: Role, many: set<nat>)
    requires n <= |layout|
    ensures Positions(layout + [a], n, role, many) == Positions(layout, n, role, many)
  {
    if n > 0 {
      PositionsStable(layout, a, n - 1, role, many);
    }
  }

  /** One slot-occupying argument, as one round of the cache builder records it. */
  function Record(c: ArgCache, a: Arg, at: nat, many: set<nat>): ArgCache
    requires at < |c.args|
  {
    match a.type_
    case Ref(id) =>
      if id == 0 then c.(rtIdxs := c.rtIdxs + [at])
      else if id == 1 then c.(rtWorkers := c.rtWorkers + [at])
      else if id in many then c.(bufferRefs := c.bufferRefs + [at])
      else c.(args := c.args[at := Static(at)])
    case Res(_) => c.(resIndexes := c.resIndexes + [at])
    case Dep(_) => c.(resIndexes := c.resIndexes + [at])
    case Barrier(_) => c
    case _ => c.(args := c.args[at := Static(at)])
  }

  lemma {:induction false} PositionsStep(layout: seq<Arg>, a: Arg, role: Role, many: set<nat>)
    ensures Positions(layout + [a], |layout| + 1, role, many) ==
            Positions(layout, |layout|, role, many) + if Plays(a, role, many) then [|layout|] else []
  {
    hide Plays;
    PositionsStable(layout, a, |layout|, role, many);
  }

  lemma {:induction false} RecordStep(c: ArgCache, layout: seq<Arg>, a: Arg, size: nat, many: set<nat>)
    requires |layout| < size && CacheUpTo(c, layout, |layout|, size, many)
    ensures |Record(c, a, |layout|, many).args| == size
    ensures CacheUpTo(Record(c, a, |layout|, many), layout + [a], |layout| + 1, size, many)
  {
    hide Positions;
    PositionsStep(layout, a, PerBuffer, many);
    PositionsStep(layout, a, PerInstance, many);
    PositionsStep(layout, a, WorkerCount, many);
    PositionsStep(layout, a, Result, many);
  }

  lemma {:induction false} PredsDoNotMatter(c: ArgCache, layout: seq<Arg>, size: nat, many: set<nat>,
          preds: seq<ResPred>)
    requires CacheUpTo(c, layout, |layout|, size, many)
    ensures CacheUpTo(c.(resPreds := preds), layout, |layout|, size, many)
  {
  }

  /** Classifies every argument once; conditional ones take no slot, but still count
      towards the length of the template. */
  method BuildArgCache(args: seq<Arg>, many: set<nat>, factor: nat) returns (c: ArgCache)
    ensures |Occupying(args)| <= |args|
    ensures CacheUpTo(c, Occupying(args), |Occupying(args)|, |args|, many)
    ensures c.resPreds == ResPreds(Occupying(args), |Occupying(args)|, factor)
  {
    OccupyingIsShort(args);
    c := ArgCache(Nothings(|args|), [], [], [], [], []);
    var idxCount := 0;
    ghost var layout := [];
    assert Occupying(args[..0]) == layout && CacheUpTo(c, layout, 0, |args|, many);
    hide Record, CacheUpTo, ResPreds, Occupying;
    for i := 0 to |args|
      invariant layout == Occupying(args[..i]) && idxCount == |layout| <= i
      invariant |c.args| == |args| && CacheUpTo(c, layout, idxCount, |args|, many)
    {
      OccupyingStep(args, i);
      if args[i].conditional {
        continue;
      }
      RecordStep(c, layout, args[i], |args|, many);
      c := Record(c, args[i], idxCount, many);
      layout := layout + [args[i]];
      idxCount := idxCount + 1;
    }
    assert args[..|args|] == args;
    var preds := BuildResPreds(args, factor);
    PredsDoNotMatter(c, layout, |args|, many, preds);
    c := c.(resPreds := preds);
  }

  /** The fetched arguments' predecessor data, in argument order. */
  function ResPreds(layout: seq<Arg>, n: nat, factor: nat): seq<ResPred>
    requires n <= |layout|
  {
    if n == 0 then []
    else ResPreds(layout, n - 1, factor) + if IsFetched(layout[n - 1]) then [PredOf(layout[n - 1], factor)] else []
  }

  lemma {:induction false} FetchedAre(layout: seq<Arg>, n: nat, factor: nat, many: set<nat>)
    requires n <= |layout|
    ensures |ResPreds(layout, n, factor)| == |Positions(layout, n, Result, many)|
    ensures forall j | 0 <= j < |Positions(layout, n, Result, many)| ::
              && Positions(layout, n, Result, many)[j] < n
              && ResPreds(layout, n, factor)[j] == PredOf(layout[Positions(layout, n, Result, many)[j]], factor)
  {
    hide PredOf, IsFetched;
    if n > 0 {
      FetchedAre(layout, n - 1, factor, many);
    }
  }

  lemma {:induction false} ResPredsStable(layout: seq<Arg>, a: Arg, n: nat, factor: nat)
    requires n <= |layout|
    ensures ResPreds(layout + [a], n, factor) == ResPreds(layout, n, factor)
  {
    if n > 0 {
      ResPredsStable(layout, a, n - 1, factor);
    }
  }

  method BuildResPreds(args: seq<Arg>, factor: nat) returns (preds: seq<ResPred>)
    ensures preds == ResPreds(Occupying(args), |Occupying(args)|, factor)
  {
    preds := [];
    ghost var layout := [];
    assert Occupying(args[..0]) == layout;
    hide Occupying;
    for i := 0 to |args|
      invariant layout == Occupying(args[..i])
      invariant preds == ResPreds(layout, |layout|, factor)
    {
      OccupyingStep(args, i);
      if args[i].conditional {
        continue;
      }
      ResPredsStable(layout, args[i], |layout|, factor);
      match args[i].type_ {
        case Res(_) =>
          preds := preds + [ResPred(false, IndexCount(args[i]), factor)];
        case Dep(_) =>
          preds := preds + [ResPred(true, 0, factor)];
        case _ =>
      }
      layout := layout + [args[i]];
    }
    assert args[..|args|] == args;
  }

  // ---------------------------------------------------------------- per task

  /** Number of values a fetch delivers; none for an empty index list. */
  function FetchWidth(rp: ResPred): nat {
    if rp.isDep then 1
    else if rp.indexCount > 1 && rp.indexCount == rp.nodeFactor then 1
    else rp.indexCount
  }

  function FetchCells(rp: ResPred, at: nat, task: nat): seq<Cell> {
    if rp.isDep then [Nothing] else seq(FetchWidth(rp), k requires 0 <= k => Fetched(at, k, task))
  }

  /** One result: stored in place when single, spliced in otherwise. */
  function Deliver(buf: seq<Cell>, at: nat, rp: ResPred, task: nat): (after: seq<Cell>)
    requires at < |buf|
    ensures |after| >= |buf|
  {
    if FetchWidth(rp) == 0 then buf
    else if FetchWidth(rp) == 1 then buf[at := FetchCells(rp, at, task)[0]]
    else buf[..at] + FetchCells(rp, at, task) + buf[at + 1..]
  }

  function DeliverAll(buf: seq<Cell>, layout: seq<Arg>, n: nat, factor: nat, task: nat): (after: seq<Cell>)
    requires n <= |layout| <= |buf|
    ensures |after| >= |buf|
  {
    if n == 0 then buf
    else
      var before := DeliverAll(buf, layout, n - 1, factor, task);
      if IsFetched(layout[n - 1]) then Deliver(before, n - 1, PredOf(layout[n - 1], factor), task) else before
  }

  function RefCell(a: Arg, at: nat, many: set<nat>, task: nat, current: Cell): Cell {
    if IsBufferRef(a, many) then BufferValue(at, task)
    else if IsRtIdx(a) then Instance(task)
    else if IsRtWorkers(a) then Workers
    else current
  }

  function PatchRefs(buf: seq<Cell>, layout: seq<Arg>, many: set<nat>, task: nat): seq<Cell>
    requires |layout| <= |buf|
  {
    seq(|buf|, i requires 0 <= i < |buf| => if i < |layout| then RefCell(layout[i], i, many, task, buf[i]) else buf[i])
  }

  /** What a task's patches make of a buffer, whatever was in it. */
  function Patched(buf: seq<Cell>, layout: seq<Arg>, many: set<nat>, factor: nat, task: nat): seq<Cell>
    requires |layout| <= |buf|
  {
    DeliverAll(PatchRefs(buf, layout, many, task), layout, |layout|, factor, task)
  }

  function Template(layout: seq<Arg>, many: set<nat>, size: nat): seq<Cell>
    requires |layout| <= size
  {
    seq(size, i requires 0 <= i < size => if i < |layout| then TemplateCell(layout[i], i, many) else Nothing)
  }

  function Fresh(layout: seq<Arg>, many: set<nat>, size: nat, factor: nat, task: nat): seq<Cell>
    requires |layout| <= size
  {
    Patched(Template(layout, many, size), layout, many, factor, task)
  }

  /** Both runtime references in one pass when there are as many of one as of the
      other, in two passes otherwise. */
  method ProcessRuntimeRefs(buf: seq<Cell>, c: ArgCache, task: nat) returns (out: seq<Cell>)
    requires forall i <- c.rtIdxs :: i < |buf| && i !in c.rtWorkers
    requires forall i <- c.rtWorkers :: i < |buf|
    ensures |out| == |buf|
    ensures forall i | 0 <= i < |buf| ::
              out[i] == if i in c.rtIdxs then Instance(task) else if i in c.rtWorkers then Workers else buf[i]
  {
    out := buf;
    if |c.rtIdxs| == |c.rtWorkers| {
      for j := 0 to |c.rtIdxs|
        invariant |out| == |buf|
        invariant forall i | 0 <= i < |buf| ::
          out[i] == if i in c.rtIdxs[..j] then Instance(task) else if i in c.rtWorkers[..j] then Workers else buf[i]
      {
        assert c.rtIdxs[j] in c.rtIdxs && c.rtWorkers[j] in c.rtWorkers;
        assert c.rtIdxs[..j + 1] == c.rtIdxs[..j] + [c.rtIdxs[j]] &&
          c.rtWorkers[..j + 1] == c.rtWorkers[..j] + [c.rtWorkers[j]];
        assert forall i <- c.rtIdxs[..j] :: i in c.rtIdxs;
        out := out[c.rtIdxs[j] := Instance(task)];
        out := out[c.rtWorkers[j] := Workers];
      }
    } else {
      for j := 0 to |c.rtIdxs|
        invariant |out| == |buf|
        invariant forall i | 0 <= i < |buf| :: out[i] == if i in c.rtIdxs[..j] then Instance(task) else buf[i]
      {
        assert c.rtIdxs[j] in c.rtIdxs;
        assert c.rtIdxs[..j + 1] == c.rtIdxs[..j] + [c.rtIdxs[j]];
        out := out[c.rtIdxs[j] := Instance(task)];
      }
      assert c.rtIdxs[..|c.rtIdxs|] == c.rtIdxs;
      for j := 0 to |c.rtWorkers|
        invariant |out| == |buf|
        invariant forall i | 0 <= i < |buf| ::
          out[i] == if i in c.rtIdxs then Instance(task) else if i in c.rtWorkers[..j] then Workers else buf[i]
      {
        assert c.rtWorkers[j] in c.rtWorkers;
        assert c.rtWorkers[..j + 1] == c.rtWorkers[..j] + [c.rtWorkers[j]];
        out := out[c.rtWorkers[j] := Workers];
      }
    }
    assert c.rtIdxs[..|c.rtIdxs|] == c.rtIdxs && c.rtWorkers[..|c.rtWorkers|] == c.rtWorkers;
  }

  method ProcessBufferRefs(buf: seq<Cell>, c: ArgCache, task: nat) returns (out: seq<Cell>)
    requires forall i <- c.bufferRefs :: i < |buf|
    ensures |out| == |buf|
    ensures forall i | 0 <= i < |buf| :: out[i] == if i in c.bufferRefs then BufferValue(i, task) else buf[i]
  {
    out := buf;
    for j := 0 to |c.bufferRefs|
      invariant |out| == |buf|
      invariant forall i | 0 <= i < |buf| :: out[i] == if i in c.bufferRefs[..j] then BufferValue(i, task) else buf[i]
    {
      assert c.bufferRefs[j] in c.bufferRefs;
      assert c.bufferRefs[..j + 1] == c.bufferRefs[..j] + [c.bufferRefs[j]];
      out := out[c.bufferRefs[j] := BufferValue(c.bufferRefs[j], task)];
    }
    assert c.bufferRefs[..|c.bufferRefs|] == c.bufferRefs;
  }

  ghost predicate CacheFor(c: ArgCache, layout: seq<Arg>, size: nat, many: set<nat>, factor: nat) {
    && |layout| <= size && CacheUpTo(c, layout, |layout|, size, many)
    && c.resPreds == ResPreds(layout, |layout|, factor)
  }

  /** The deliveries of the first n listed positions, in list order. */
  function DeliverListed(buf: seq<Cell>, layout: seq<Arg>, at: seq<nat>, n: nat, factor: nat,
          task: nat): (after: seq<Cell>)
    requires |layout| <= |buf| && n <= |at| && forall j | 0 <= j < |at| :: at[j] < |layout|
    ensures |after| >= |buf|
  {
    if n == 0 then buf
    else
      Deliver(DeliverListed(buf, layout, at, n - 1, factor, task), at[n - 1], PredOf(layout[at[n - 1]], factor), task)
  }

  lemma {:induction false} ListedPrefix(buf: seq<Cell>, layout: seq<Arg>, at: seq<nat>, more: seq<nat>, n: nat,
          factor: nat, task: nat)
    requires |layout| <= |buf| && n <= |at| && forall j | 0 <= j < |at + more| :: (at + more)[j] < |layout|
    ensures forall j | 0 <= j < |at| :: at[j] < |layout|
    ensures DeliverListed(buf, layout, at + more, n, factor, task) == DeliverListed(buf, layout, at, n, factor, task)
  {
    hide Deliver, PredOf;
    assert forall j | 0 <= j < |at| :: at[j] == (at + more)[j];
    if n > 0 {
      ListedPrefix(buf, layout, at, more, n - 1, factor, task);
    }
  }

  lemma {:induction false} ListedAreAll(buf: seq<Cell>, layout: seq<Arg>, n: nat, many: set<nat>, factor: nat,
          task: nat)
    requires n <= |layout| <= |buf|
    ensures var at := Positions(layout, n, Result, many);
            && (forall j | 0 <= j < |at| :: at[j] < n)
            && DeliverListed(buf, layout, at, |at|, factor, task) == DeliverAll(buf, layout, n, factor, task)
  {
    hide Deliver, PredOf, IsFetched, Positions;
    PositionsUnfold(layout, n, Result, many);
    if n > 0 {
      ListedAreAll(buf, layout, n - 1, many, factor, task);
      var before := Positions(layout, n - 1, Result, many);
      if IsFetched(layout[n - 1]) {
        ListedPrefix(buf, layout, before, [n - 1], |before|, factor, task);
      }
    }
  }

  lemma {:induction false} PositionsUnfold(layout: seq<Arg>, n: nat, role: Role, many: set<nat>)
    requires n <= |layout|
    ensures Positions(layout, n, role, many) ==
            if n == 0 then [] else if Plays(layout[n - 1], role, many)
              then Positions(layout, n - 1, role, many) + [n - 1]
            else Positions(layout, n - 1, role, many)
  {
  }

  /** A single value replaces the entry, several are spliced in at it. */
  method DeliverOne(buf: seq<Cell>, at: nat, rp: ResPred, task: nat) returns (out: seq<Cell>)
    requires at < |buf|
    ensures out == Deliver(buf, at, rp, task)
  {
    var result := FetchCells(rp, at, task);
    out := buf;
    if |result| == 1 {
      out := out[at := result[0]];
    } else if |result| > 0 {
      out := out[..at] + result + out[at + 1..];
    }
  }

  /** Fetches the listed results one after the other. */
  method DeliverResults(buf: seq<Cell>, at: seq<nat>, preds: seq<ResPred>, ghost layout: seq<Arg>,
                        ghost factor: nat, task: nat) returns (out: seq<Cell>)
    requires |layout| <= |buf| && |preds| == |at|
    requires forall j | 0 <= j < |at| :: at[j] < |layout| && preds[j] == PredOf(layout[at[j]], factor)
    ensures out == DeliverListed(buf, layout, at, |at|, factor, task)
  {
    hide PredOf, Deliver;
    out := buf;
    for j := 0 to |at|
      invariant |out| >= |buf|
      invariant out == DeliverListed(buf, layout, at, j, factor, task)
    {
      out := DeliverOne(out, at[j], preds[j], task);
    }
  }

  /** The per-task patches, applied to a buffer that holds at least one entry per
      slot-occupying argument. */
  method PopulateDynamicArgs(buf: seq<Cell>, c: ArgCache, ghost layout: seq<Arg>, ghost many: set<nat>,
                             ghost factor: nat, task: nat) returns (out: seq<Cell>)
    requires |layout| <= |buf| && CacheFor(c, layout, |c.args|, many, factor)
    ensures out == Patched(buf, layout, many, factor, task)
  {
    hide DeliverAll, ResPreds, DeliverListed, PredOf;
    out := ProcessBufferRefs(buf, c, task);
    out := ProcessRuntimeRefs(out, c, task);
    assert out == PatchRefs(buf, layout, many, task);
    FetchedAre(layout, |layout|, factor, many);
    ListedAreAll(out, layout, |layout|, many, factor, task);
    out := DeliverResults(out, c.resIndexes, c.resPreds, layout, factor, task);
  }

  /** A task without a reusable buffer starts from the template. */
  method PopulateCachedArgs(c: ArgCache, ghost layout: seq<Arg>, ghost many: set<nat>, ghost factor: nat, task: nat)
      returns (buf: seq<Cell>)
    requires CacheFor(c, layout, |c.args|, many, factor)
    ensures buf == Fresh(layout, many, |c.args|, factor, task)
  {
    buf := c.args;
    assert buf == Template(layout, many, |c.args|);
    if c.bufferRefs == [] && c.rtIdxs == [] && c.rtWorkers == [] && c.resIndexes == [] {
      NothingDynamic(c, layout, many, factor, task);
      return;
    }
    buf := PopulateDynamicArgs(buf, c, layout, many, factor, task);
  }

  lemma {:induction false} NothingDynamic(c: ArgCache, layout: seq<Arg>, many: set<nat>, factor: nat, task: nat)
    requires CacheFor(c, layout, |c.args|, many, factor)
    requires c.bufferRefs == [] && c.rtIdxs == [] && c.rtWorkers == [] && c.resIndexes == []
    ensures Fresh(layout, many, |c.args|, factor, task) == c.args
  {
    assert c.args == Template(layout, many, |c.args|);
    assert PatchRefs(c.args, layout, many, task) == c.args;
    ListedAreAll(c.args, layout, |layout|, many, factor, task);
  }

  // --------------------------------------------------- does everything fit?

  /** Slots an argument takes in the buffer. */
  function SlotWidth(a: Arg, factor: nat): nat {
    if IsFetched(a) && FetchWidth(PredOf(a, factor)) > 1 then FetchWidth(PredOf(a, factor)) else 1
  }

  /** Only the last argument may take several slots. */
  predicate SingleUntilLast(layout: seq<Arg>, factor: nat) {
    forall i | 0 <= i < |layout| - 1 :: SlotWidth(layout[i], factor) == 1
  }

  /** Arguments own the ranges [position, position + width); none overlap. */
  predicate RangesDisjoint(layout: seq<Arg>, factor: nat) {
    forall i, j | 0 <= i < j < |layout| :: !Overlap(layout, i, j, factor)
  }

  predicate Overlap(layout: seq<Arg>, i: nat, j: nat, factor: nat)
    requires i < |layout| && j < |layout|
  {
    i < j + SlotWidth(layout[j], factor) && j < i + SlotWidth(layout[i], factor)
  }

  lemma {:induction false} DisjointMeansSingle(layout: seq<Arg>, factor: nat)
    ensures RangesDisjoint(layout, factor) <==> SingleUntilLast(layout, factor)
  {
    hide SlotWidth;
    forall a ensures SlotWidth(a, factor) >= 1 { AtLeastOneSlot(a, factor); }
    if RangesDisjoint(layout, factor) {
      forall i | 0 <= i < |layout| - 1 ensures SlotWidth(layout[i], factor) == 1 {
        assert !Overlap(layout, i, i + 1, factor);
      }
    }
  }

  lemma {:induction false} AtLeastOneSlot(a: Arg, factor: nat)
    ensures SlotWidth(a, factor) >= 1
  {
  }

  /** The value argument `at` must find k slots into its range. */
  function OwnCell(a: Arg, at: nat, k: nat, many: set<nat>, factor: nat, task: nat): Cell {
    if a.type_.Res? && IndexCount(a) > 0 then Fetched(at, k, task)
    else RefCell(a, at, many, task, TemplateCell(a, at, many))
  }

  /** Every argument finds its own values in its own range. */
  ghost predicate Intact(buf: seq<Cell>, layout: seq<Arg>, many: set<nat>, factor: nat, task: nat) {
    forall i, k | 0 <= i < |layout| && 0 <= k < SlotWidth(layout[i], factor) ::
      HoldsOwn(buf, layout, i, k, many, factor, task)
  }

  ghost predicate HoldsOwn(buf: seq<Cell>, layout: seq<Arg>, i: nat, k: nat, many: set<nat>, factor: nat, task: nat)
    requires i < |layout|
  {
    i + k < |buf| && buf[i + k] == OwnCell(layout[i], i, k, many, factor, task)
  }

  /** While all deliveries are single, each argument's first slot is settled by its
      own step, and the slots still to come keep what they had. */
  lemma {:induction false} SingleDeliveries(buf: seq<Cell>, layout: seq<Arg>, n: nat, factor: nat, task: nat)
    requires n <= |layout| <= |buf|
    requires forall i | 0 <= i < n :: SlotWidth(layout[i], factor) == 1
    ensures var after := DeliverAll(buf, layout, n, factor, task);
            && |after| == |buf|
            && forall i | 0 <= i < |buf| :: after[i] ==
                 if i < n && IsFetched(layout[i]) && FetchWidth(PredOf(layout[i], factor)) == 1
                 then FetchCells(PredOf(layout[i], factor), i, task)[0] else buf[i]
  {
    if n > 0 {
      SingleDeliveries(buf, layout, n - 1, factor, task);
    }
  }

  /** Delivering at a position leaves everything before it alone. */
  lemma {:induction false} EarlierSlotsStay(buf: seq<Cell>, layout: seq<Arg>, from: nat, n: nat, i: nat,
          factor: nat, task: nat)
    requires i < from <= n <= |layout| <= |buf|
    ensures DeliverAll(buf, layout, n, factor, task)[i] == DeliverAll(buf, layout, from, factor, task)[i]
  {
    hide PredOf, FetchCells, FetchWidth;
    if n > from {
      EarlierSlotsStay(buf, layout, from, n - 1, i, factor, task);
    }
  }

  lemma {:induction false} SinglesAreIntact(layout: seq<Arg>, many: set<nat>, size: nat, factor: nat, task: nat)
    requires |layout| <= size && SingleUntilLast(layout, factor)
    ensures Intact(Fresh(layout, many, size, factor, task), layout, many, factor, task)
  {
    var final := Fresh(layout, many, size, factor, task);
    forall i, k | 0 <= i < |layout| && 0 <= k < SlotWidth(layout[i], factor)
      ensures HoldsOwn(final, layout, i, k, many, factor, task)
    {
      OwnStep(layout, many, size, factor, task, i, k);
      if k == 0 {
        EarlierSlotsStay(PatchRefs(Template(layout, many, size), layout, many, task), layout, i + 1, |layout|, i,
          factor, task);
      }
      hide *;
      assert k > 0 ==> i == |layout| - 1;
    }
  }

  /** An argument's own step puts its values into its range, when the steps before
      it were single. */
  lemma {:induction false} OwnStep(layout: seq<Arg>, many: set<nat>, size: nat, factor: nat, task: nat, i: nat, k: nat)
    requires i < |layout| <= size && k < SlotWidth(layout[i], factor)
    requires forall j | 0 <= j < i :: SlotWidth(layout[j], factor) == 1
    ensures HoldsOwn(DeliverAll(PatchRefs(Template(layout, many, size), layout, many, task), layout, i + 1, factor,
            task),
                     layout, i, k, many, factor, task)
  {
    var start := PatchRefs(Template(layout, many, size), layout, many, task);
    SingleDeliveries(start, layout, i, factor, task);
    var before := DeliverAll(start, layout, i, factor, task);
    assert before[i] == start[i] && |before| == size;
    DeliveredCell(before, layout[i], i, many, factor, task, k);
  }

  lemma {:induction false} DeliveredCell(buf: seq<Cell>, a: Arg, i: nat, many: set<nat>, factor: nat, task: nat, k: nat)
    requires i < |buf| && buf[i] == RefCell(a, i, many, task, TemplateCell(a, i, many)) && k < SlotWidth(a, factor)
    ensures var after := if IsFetched(a) then Deliver(buf, i, PredOf(a, factor), task) else buf;
            i + k < |after| && after[i + k] == OwnCell(a, i, k, many, factor, task)
  {
  }

  /** A wide argument that is not last spills into the next one's slot. */
  lemma {:induction false} WideSpills(layout: seq<Arg>, many: set<nat>, size: nat, factor: nat, task: nat, m: nat)
    requires |layout| <= size && m + 1 < |layout| && SlotWidth(layout[m], factor) > 1
    ensures !Intact(Fresh(layout, many, size, factor, task), layout, many, factor, task)
  {
    var start := PatchRefs(Template(layout, many, size), layout, many, task);
    var before, spilled, next :=
      DeliverAll(start, layout, m, factor, task), DeliverAll(start, layout, m + 1, factor, task),
      DeliverAll(start, layout, m + 2, factor, task);
    var rp := PredOf(layout[m], factor);
    assert spilled == before[..m] + FetchCells(rp, m, task) + before[m + 1..];
    assert spilled[m + 1] == Fetched(m, 1, task);
    var other := layout[m + 1];
    assert next[m + 1] == if IsFetched(other) && FetchWidth(PredOf(other, factor)) > 0
                          then FetchCells(PredOf(other, factor), m + 1, task)[0] else Fetched(m, 1, task);
    var final := Fresh(layout, many, size, factor, task);
    EarlierSlotsStay(start, layout, m + 2, |layout|, m + 1, factor, task);
    AtLeastOneSlot(other, factor);
    assert Intact(final, layout, many, factor, task) ==> HoldsOwn(final, layout, m, 1, many, factor, task);
    assert Intact(final, layout, many, factor, task) ==> HoldsOwn(final, layout, m + 1, 0, many, factor, task);
  }

  /** Every argument of every task finds its own values exactly when only the last
      one is wide, that is, when no two ranges overlap. */
  lemma {:induction false} IntactExactly(layout: seq<Arg>, many: set<nat>, size: nat, factor: nat, task: nat)
    requires |layout| <= size
    ensures Intact(Fresh(layout, many, size, factor, task), layout, many, factor, task) <==>
            RangesDisjoint(layout, factor)
  {
    DisjointMeansSingle(layout, factor);
    if SingleUntilLast(layout, factor) {
      SinglesAreIntact(layout, many, size, factor, task);
    } else {
      forall a ensures SlotWidth(a, factor) >= 1 { AtLeastOneSlot(a, factor); }
      var m :| 0 <= m < |layout| - 1 && SlotWidth(layout[m], factor) != 1;
      WideSpills(layout, many, size, factor, task, m);
    }
  }

  /** A wide result edge that is grouped and not last. */
  predicate GroupedSpill(layout: seq<Arg>, factor: nat) {
    exists i | 0 <= i < |layout| - 1 ::
      SlotWidth(layout[i], factor) > 1 && layout[i].predecessor.Some? && layout[i].predecessor.value.groupBy.Some?
  }

  lemma {:induction false} WideIsMultiValue(a: Arg, factor: nat)
    ensures SlotWidth(a, factor) > 1 ==> a.type_.Res? && a.predecessor.Some?
    ensures MultiValue(a, factor) <==> SlotWidth(a, factor) > 1 && a.predecessor.value.groupBy.None?
  {
  }

  /** The loader's layout check is exact, up to the grouped edges it does not look at:
      the buffer is intact if and only if the check accepts and no grouped edge is
      wide without being last. */
  lemma {:induction false} LayoutCheckIsExact(args: seq<Arg>, many: set<nat>, size: nat, factor: nat, task: nat)
    requires |Occupying(args)| <= size
    ensures var layout := Occupying(args);
            Intact(Fresh(layout, many, size, factor, task), layout, many, factor, task) <==>
            LayoutCheck(args, factor).Good? && !GroupedSpill(layout, factor)
  {
    var layout := Occupying(args);
    IntactExactly(layout, many, size, factor, task);
    DisjointMeansSingle(layout, factor);
    hide Fresh, Intact, LayoutCheck, RangesDisjoint, SlotWidth, MultiValue;
    forall a
      ensures SlotWidth(a, factor) >= 1
      ensures SlotWidth(a, factor) > 1 ==> a.type_.Res? && a.predecessor.Some?
      ensures MultiValue(a, factor) <==> SlotWidth(a, factor) > 1 && a.predecessor.value.groupBy.None?
    {
      WideIsMultiValue(a, factor);
      AtLeastOneSlot(a, factor);
    }
  }

  /** A grouped edge the check lets through although it overruns its neighbour. */
  lemma {:induction false} GroupedEdgeOverruns()
    ensures var args := [Arg(Res(0), false, Some(Predecessor(0, [0, 1], Some(2)))),
                         Arg(OtherValue, false, None)];
            && LayoutCheck(args, 4).Good?
            && !Intact(Fresh(Occupying(args), {}, 2, 4, 0), Occupying(args), {}, 4, 0)
  {
    var args := [Arg(Res(0), false, Some(Predecessor(0, [0, 1], Some(2)))),
                 Arg(OtherValue, false, None)];
    assert args[1..] == [args[1]] && args[1..][1..] == [];
    assert Occupying(args) == args;
    LayoutCheckIsExact(args, {}, 2, 4, 0);
    assert SlotWidth(args[0], 4) == 2;
    assert !MultiValue(args[0], 4);
    assert GroupedSpill(args, 4);
  }

  /** Without grouped edges the check alone decides. */
  lemma {:induction false} UngroupedCheckIsExact(args: seq<Arg>, many: set<nat>, size: nat, factor: nat, task: nat)
    requires |Occupying(args)| <= size
    requires forall a <- Occupying(args) :: a.predecessor.Some? ==> a.predecessor.value.groupBy.None?
    ensures LayoutCheck(args, factor).Good? <==> RangesDisjoint(Occupying(args), factor)
  {
    LayoutCheckIsExact(args, many, size, factor, task);
    IntactExactly(Occupying(args), many, size, factor, task);
    hide Fresh, Intact, LayoutCheck, RangesDisjoint;
    var layout := Occupying(args);
    assert forall i | 0 <= i < |layout| :: layout[i] in layout;
  }

  // ------------------------------------------------------- reusing a buffer

  /** The runtime's test for keeping one buffer per node. */
  predicate TemplateStable(preds: seq<ResPred>) {
    forall j | 0 <= j < |preds| ::
      preds[j].isDep || preds[j].indexCount <= 1 || preds[j].indexCount == preds[j].nodeFactor
  }

  predicate AllSingle(layout: seq<Arg>, n: nat, factor: nat)
    requires n <= |layout|
  {
    forall i | 0 <= i < n :: SlotWidth(layout[i], factor) == 1
  }

  lemma {:induction false} StableMeansSingle(layout: seq<Arg>, n: nat, factor: nat)
    requires n <= |layout|
    ensures TemplateStable(ResPreds(layout, n, factor)) <==> AllSingle(layout, n, factor)
  {
    if n > 0 {
      StableMeansSingle(layout, n - 1, factor);
      var before, after := ResPreds(layout, n - 1, factor), ResPreds(layout, n, factor);
      assert forall j | 0 <= j < |before| :: after[j] == before[j];
      if IsFetched(layout[n - 1]) {
        assert after[|before|] == PredOf(layout[n - 1], factor);
      }
      hide ResPreds;
    }
  }

  /** Slots gained by the deliveries of the first n arguments. */
  function Growth(layout: seq<Arg>, n: nat, factor: nat): (g: nat)
    requires n <= |layout|
    ensures g == 0 <==> AllSingle(layout, n, factor)
  {
    if n == 0 then 0
    else
      AtLeastOneSlot(layout[n - 1], factor);
      Growth(layout, n - 1, factor) + SlotWidth(layout[n - 1], factor) - 1
  }

  lemma {:induction false} DeliveriesGrow(buf: seq<Cell>, layout: seq<Arg>, n: nat, factor: nat, task: nat)
    requires n <= |layout| <= |buf|
    ensures |DeliverAll(buf, layout, n, factor, task)| == |buf| + Growth(layout, n, factor)
  {
    hide AllSingle;
    if n > 0 {
      DeliveriesGrow(buf, layout, n - 1, factor, task);
    }
  }

  /** Patching the buffer another task left behind gives what a fresh one would hold
      exactly when the runtime's test passes. */
  lemma {:induction false} ReuseIsSafeExactly(layout: seq<Arg>, many: set<nat>, size: nat, factor: nat,
          earlier: nat, task: nat)
    requires |layout| <= size
    ensures |layout| <= |Fresh(layout, many, size, factor, earlier)|
    ensures Patched(Fresh(layout, many, size, factor, earlier), layout, many, factor, task) ==
            Fresh(layout, many, size, factor, task)
            <==> TemplateStable(ResPreds(layout, |layout|, factor))
  {
    var n := |layout|;
    StableMeansSingle(layout, n, factor);
    var template := Template(layout, many, size);
    var old_ := Fresh(layout, many, size, factor, earlier);
    DeliveriesGrow(PatchRefs(template, layout, many, earlier), layout, n, factor, earlier);
    DeliveriesGrow(PatchRefs(template, layout, many, task), layout, n, factor, task);
    DeliveriesGrow(PatchRefs(old_, layout, many, task), layout, n, factor, task);
    if AllSingle(layout, n, factor) {
      SingleDeliveries(PatchRefs(template, layout, many, earlier), layout, n, factor, earlier);
      SingleDeliveries(PatchRefs(template, layout, many, task), layout, n, factor, task);
      SingleDeliveries(PatchRefs(old_, layout, many, task), layout, n, factor, task);
      SameCells(layout, many, size, factor, earlier, task);
    }
  }

  lemma {:induction false} SameCells(layout: seq<Arg>, many: set<nat>, size: nat, factor: nat, earlier: nat, task: nat)
    requires |layout| <= size && AllSingle(layout, |layout|, factor)
    requires |layout| <= |Fresh(layout, many, size, factor, earlier)|
    ensures Patched(Fresh(layout, many, size, factor, earlier), layout, many, factor, task) ==
            Fresh(layout, many, size, factor, task)
  {
    var n := |layout|;
    var template := Template(layout, many, size);
    var old_ := Fresh(layout, many, size, factor, earlier);
    SingleDeliveries(PatchRefs(template, layout, many, earlier), layout, n, factor, earlier);
    SingleDeliveries(PatchRefs(template, layout, many, task), layout, n, factor, task);
    SingleDeliveries(PatchRefs(old_, layout, many, task), layout, n, factor, task);
    var again, fresh_ := Patched(old_, layout, many, factor, task), Fresh(layout, many, size, factor, task);
    forall i | 0 <= i < size ensures again[i] == fresh_[i] {
    }
  }

  /** The node's buffer after any number of tasks on one thread. */
  function Reused(layout: seq<Arg>, many: set<nat>, size: nat, factor: nat, tasks: seq<nat>): (buf: seq<Cell>)
    requires |layout| <= size
    ensures |layout| <= |buf|
  {
    if tasks == [] then Template(layout, many, size)
    else
      Patched(Reused(layout, many, size, factor, tasks[..|tasks| - 1]), layout, many, factor, tasks[|tasks| - 1])
  }

  /** Every task patched into one buffer makes the list longer by the slots its deliveries
      gain, which is none exactly when the runtime's test passes. */
  lemma {:induction false} ReuseGrows(layout: seq<Arg>, many: set<nat>, size: nat, factor: nat, tasks: seq<nat>)
    requires |layout| <= size
    ensures |Reused(layout, many, size, factor, tasks)| == size + |tasks| * Growth(layout, |layout|, factor)
    ensures Growth(layout, |layout|, factor) == 0 <==> TemplateStable(ResPreds(layout, |layout|, factor))
  {
    hide DeliverAll, PatchRefs, TemplateStable, ResPreds, AllSingle;
    StableMeansSingle(layout, |layout|, factor);
    if tasks != [] {
      var before := Reused(layout, many, size, factor, tasks[..|tasks| - 1]);
      var task := tasks[|tasks| - 1];
      ReuseGrows(layout, many, size, factor, tasks[..|tasks| - 1]);
      PatchesKeepLength(before, layout, many, task);
      DeliveriesGrow(PatchRefs(before, layout, many, task), layout, |layout|, factor, task);
    }
  }

  lemma {:induction false} PatchesKeepLength(buf: seq<Cell>, layout: seq<Arg>, many: set<nat>, task: nat)
    requires |layout| <= |buf|
    ensures |PatchRefs(buf, layout, many, task)| == |buf|
  {
  }

  /** Two of a predecessor's three instances: the list has two entries for the first cell
      and three for the second. */
  lemma {:induction false} SecondCellSeesMore(first: nat, second: nat)
    ensures var layout := [Arg(Res(0), false, Some(Predecessor(0, [0, 1], None)))];
            && !TemplateStable(ResPreds(layout, 1, 3))
            && |Reused(layout, {}, 1, 3, [first])| == 2 && |Reused(layout, {}, 1, 3, [first, second])| == 3
  {
    var layout := [Arg(Res(0), false, Some(Predecessor(0, [0, 1], None)))];
    assert SlotWidth(layout[0], 3) == 2;
    assert Growth(layout, 0, 3) == 0 && Growth(layout, 1, 3) == 1;
    hide Growth, Reused, TemplateStable, ResPreds;
    ReuseGrows(layout, {}, 1, 3, [first]);
    ReuseGrows(layout, {}, 1, 3, [first, second]);
  }

  /** Over every run, a stable node's kernel sees the list a fresh buffer would give. */
  lemma {:induction false} ReusedBuffersAreFresh(layout: seq<Arg>, many: set<nat>, size: nat, factor: nat,
          tasks: seq<nat>)
    requires |layout| <= size && tasks != [] && TemplateStable(ResPreds(layout, |layout|, factor))
    ensures Reused(layout, many, size, factor, tasks) == Fresh(layout, many, size, factor, tasks[|tasks| - 1])
  {
    if |tasks| > 1 {
      var before := tasks[..|tasks| - 1];
      ReusedBuffersAreFresh(layout, many, size, factor, before);
      ReuseIsSafeExactly(layout, many, size, factor, before[|before| - 1], tasks[|tasks| - 1]);
    } else {
      assert tasks[..0] == [];
    }
  }

  /** So every slot of a stable node's list holds its own argument's value for the task
      at hand. */
  lemma {:induction false} ReusedCells(layout: seq<Arg>, many: set<nat>, size: nat, factor: nat, tasks: seq<nat>,
          i: nat)
    requires i < |layout| <= size && tasks != [] && TemplateStable(ResPreds(layout, |layout|, factor))
    ensures var buf := Reused(layout, many, size, factor, tasks);
            |buf| == size && buf[i] == OwnCell(layout[i], i, 0, many, factor, tasks[|tasks| - 1])
  {
    var task := tasks[|tasks| - 1];
    ReusedBuffersAreFresh(layout, many, size, factor, tasks);
    StableMeansSingle(layout, |layout|, factor);
    SinglesAreIntact(layout, many, size, factor, task);
    DeliveriesGrow(PatchRefs(Template(layout, many, size), layout, many, task), layout, |layout|, factor, task);
    AtLeastOneSlot(layout[i], factor);
    hide OwnCell, SlotWidth, ResPreds;
    assert HoldsOwn(Fresh(layout, many, size, factor, task), layout, i, 0, many, factor, task);
  }
}
