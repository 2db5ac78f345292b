/** The completion mask of the dependency counter: one bit per slot, claimed and
    cleared by atomic read-modify-write operations of any number of threads. */
module SlotMask {

  /** A slot is one of 64; the runtime's builder enforces the limit. */
  type Slot = bv6

  function Bit(s: Slot): bv64 {
    (1 as bv64) << s
  }

  function Probe(mask: bv64, bit: bv64): bv64 {
    mask & bit
  }

  function With(mask: bv64, bit: bv64): bv64 {
    mask | bit
  }

  function Without(mask: bv64, bit: bv64): bv64 {
    mask & !bit
  }

  predicate IsSet(mask: bv64, s: Slot) {
    Probe(mask, Bit(s)) != 0
  }

  function Claimed(mask: bv64, s: Slot): bv64 {
    With(mask, Bit(s))
  }

  function Unclaimed(mask: bv64, s: Slot): bv64 {
    Without(mask, Bit(s))
  }

  lemma {:induction false} BitsAreSeparate(s: Slot, t: Slot)
    ensures Bit(s) != 0
    ensures s != t ==> Probe(Bit(s), Bit(t)) == 0
  {
  }

  lemma {:induction false} SettingABit(m: bv64, x: bv64, y: bv64)
    ensures x != 0 ==> Probe(With(m, x), x) != 0
    ensures Probe(x, y) == 0 ==> Probe(With(m, x), y) == Probe(m, y)
  {
  }

  lemma {:induction false} ClearingABit(m: bv64, x: bv64, y: bv64)
    ensures Probe(Without(m, x), x) == 0
    ensures Probe(x, y) == 0 ==> Probe(Without(m, x), y) == Probe(m, y)
  {
  }

  datatype Op = Claim(slot: Slot) | Unclaim(slot: Slot)

  function After(mask: bv64, op: Op): bv64 {
    match op
    case Claim(s) => Claimed(mask, s)
    case Unclaim(s) => Unclaimed(mask, s)
  }

  predicate Wins(mask: bv64, op: Op) {
    op.Claim? && !IsSet(mask, op.slot)
  }

  lemma {:induction false} ClaimOnBit(mask: bv64, s: Slot, t: Slot)
    ensures IsSet(Claimed(mask, s), t) <==> t == s || IsSet(mask, t)
  {
    hide Bit, Probe, With;
    BitsAreSeparate(s, t);
    SettingABit(mask, Bit(s), Bit(t));
  }

  lemma {:induction false} UnclaimOnBit(mask: bv64, s: Slot, t: Slot)
    ensures IsSet(Unclaimed(mask, s), t) <==> t != s && IsSet(mask, t)
  {
    hide Bit, Probe, Without;
    BitsAreSeparate(s, t);
    ClearingABit(mask, Bit(s), Bit(t));
  }

  lemma {:induction false} StepOnBit(mask: bv64, op: Op, s: Slot)
    ensures IsSet(After(mask, op), s) <==>
            if op == Claim(s) then true else if op == Unclaim(s) then false else IsSet(mask, s)
  {
    hide IsSet, Claimed, Unclaimed;
    match op
    case Claim(t) => ClaimOnBit(mask, t, s);
    case Unclaim(t) => UnclaimOnBit(mask, t, s);
  }

  /** The slots a mask stands for. */
  ghost function Slots(mask: bv64): iset<Slot> {
    iset s: Slot | IsSet(mask, s)
  }

  /** The mask refines a set of slots. */
  lemma {:induction false} MaskRefinesSet(mask: bv64, op: Op)
    ensures Slots(After(mask, op)) == if op.Claim? then Slots(mask) + iset{op.slot} else Slots(mask) - iset{op.slot}
    ensures Wins(mask, op) <==> op.Claim? && op.slot !in Slots(mask)
  {
    hide IsSet, After;
    forall t ensures t in Slots(After(mask, op)) <==> if op.Claim? then t in Slots(mask) || t == op.slot
                                                      else t in Slots(mask) && t != op.slot
    {
      StepOnBit(mask, op, t);
    }
  }

  /** The two hardware operations: the new mask, and for `fetch_or` the one before. */
  method FetchOr(mask: bv64, slot: Slot) returns (next: bv64, prev: bv64)
    ensures next == After(mask, Claim(slot)) && prev == mask
  {
    next, prev := mask | ((1 as bv64) << slot), mask;
  }

  method FetchAndNot(mask: bv64, slot: Slot) returns (next: bv64)
    ensures next == After(mask, Unclaim(slot))
  {
    next := mask & !((1 as bv64) << slot);
  }

  class CompletionMask {
    var completed: bv64

    constructor ()
      ensures Slots(completed) == iset{}
    {
      completed := 0;
    }

    /** Atomic: sets the bit and reports whether this call was the one that set it. */
    method TryComplete(slot: Slot) returns (won: bool)
      modifies this
      ensures Slots(completed) == old(Slots(completed)) + iset{slot}
      ensures won <==> slot !in old(Slots(completed))
      ensures completed == After(old(completed), Claim(slot)) && won == Wins(old(completed), Claim(slot))
    {
      MaskRefinesSet(completed, Claim(slot));
      hide IsSet, After, Slots;
      var next, prev := FetchOr(completed, slot);
      completed := next;
      won := !IsSet(prev, slot);
    }

    method Unmark(slot: Slot)
      modifies this
      ensures Slots(completed) == old(Slots(completed)) - iset{slot}
      ensures completed == After(old(completed), Unclaim(slot))
    {
      MaskRefinesSet(completed, Unclaim(slot));
      hide IsSet, After, Slots;
      completed := FetchAndNot(completed, slot);
    }

    /** The slots shown by the debug output, in ascending order. */
    method CompletedList() returns (slots: seq<Slot>)
      ensures forall s: Slot :: s in slots <==> s in Slots(completed)
      ensures Ascending(slots)
    {
      hide IsSet;
      slots := [];
      var i: Slot := 0;
      while true
        invariant forall s: Slot :: s in slots <==> s < i && IsSet(completed, s)
        invariant Ascending(slots)
        decreases 63 - i
      {
        assert forall k | 0 <= k < |slots| :: slots[k] in slots;
        if IsSet(completed, i) {
          slots := slots + [i];
        }
        if i == 63 {
          break;
        }
        i := i + 1;
      }
    }
  }

  predicate Ascending(slots: seq<Slot>) {
    forall i, j | 0 <= i < j < |slots| :: slots[i] < slots[j]
  }

  // -------------------------------------------------------------------- runs

  /** One atomic operation, by some thread. */
  datatype Step = Step(thread: nat, op: Op)

  /** The mask after the first n steps of a run; the operations are atomic, so every
      concurrent execution is one of these. */
  function MaskAt(start: bv64, run: seq<Step>, n: nat): bv64
    requires n <= |run|
  {
    if n == 0 then start else After(MaskAt(start, run, n - 1), run[n - 1].op)
  }

  predicate Won(start: bv64, run: seq<Step>, k: nat)
    requires k < |run|
  {
    Wins(MaskAt(start, run, k), run[k].op)
  }

  predicate Claims(run: seq<Step>, s: Slot, lo: nat, hi: nat)
    requires hi <= |run|
  {
    exists k | lo <= k < hi :: run[k].op == Claim(s)
  }

  predicate NeverCleared(run: seq<Step>, s: Slot, lo: nat, hi: nat)
    requires hi <= |run|
  {
    forall k | lo <= k < hi :: run[k].op != Unclaim(s)
  }

  /** Successful claims of a slot among steps lo .. hi. */
  function WinCount(start: bv64, run: seq<Step>, s: Slot, lo: nat, hi: nat): nat
    requires lo <= hi <= |run|
  {
    if lo == hi then 0
    else WinCount(start, run, s, lo, hi - 1) + if run[hi - 1].op == Claim(s) && Won(start, run, hi - 1) then 1 else 0
  }

  /** Between two clearings the bit counts the winners: it is set exactly when it was
      set before or some claim ran, and then exactly one of those claims won. */
  lemma {:induction false} BitCountsTheWinner(start: bv64, run: seq<Step>, s: Slot, lo: nat, hi: nat)
    requires lo <= hi <= |run| && NeverCleared(run, s, lo, hi)
    ensures IsSet(MaskAt(start, run, hi), s) <==> IsSet(MaskAt(start, run, lo), s) || Claims(run, s, lo, hi)
    ensures WinCount(start, run, s, lo, hi) ==
            if !IsSet(MaskAt(start, run, lo), s) && Claims(run, s, lo, hi) then 1 else 0
  {
    hide IsSet, After;
    if lo < hi {
      BitCountsTheWinner(start, run, s, lo, hi - 1);
      StepOnBit(MaskAt(start, run, hi - 1), run[hi - 1].op, s);
      assert Claims(run, s, lo, hi) <==> Claims(run, s, lo, hi - 1) || run[hi - 1].op == Claim(s);
      assert run[hi - 1].op != Unclaim(s);
    }
  }

  /** Right after a clearing, and at the start of a fresh mask, the slot is free. */
  lemma {:induction false} ClearedIsFree(start: bv64, run: seq<Step>, s: Slot, k: nat)
    requires k < |run| && run[k].op == Unclaim(s)
    ensures !IsSet(MaskAt(start, run, k + 1), s)
  {
    StepOnBit(MaskAt(start, run, k), run[k].op, s);
  }

  /** Two claims of a slot that both won have a clearing of that slot between them. */
  lemma {:induction false} TwoWinnersNeedAClearing(start: bv64, run: seq<Step>, s: Slot, i: nat, j: nat)
    requires i < j < |run| && run[i].op == Claim(s) && run[j].op == Claim(s)
    requires Won(start, run, i) && Won(start, run, j)
    ensures exists k | i < k < j :: run[k].op == Unclaim(s)
  {
    if NeverCleared(run, s, i + 1, j) {
      StepOnBit(MaskAt(start, run, i), run[i].op, s);
      BitCountsTheWinner(start, run, s, i + 1, j);
    }
  }

  /** The first claim of a free slot wins, and until the slot is cleared nobody else does. */
  lemma {:induction false} FirstClaimWins(start: bv64, run: seq<Step>, s: Slot, lo: nat, k: nat)
    requires lo <= k < |run| && NeverCleared(run, s, lo, k) && run[k].op == Claim(s)
    requires !IsSet(MaskAt(start, run, lo), s)
    ensures Won(start, run, k) <==> !Claims(run, s, lo, k)
  {
    BitCountsTheWinner(start, run, s, lo, k);
  }

  function BitAt(start: bv64, run: seq<Step>, s: Slot, n: nat): nat
    requires n <= |run|
  {
    if IsSet(MaskAt(start, run, n), s) then 1 else 0
  }

  /** Clearings that found the slot claimed, among the first n steps. */
  function FreedCount(start: bv64, run: seq<Step>, s: Slot, n: nat): nat
    requires n <= |run|
  {
    if n == 0 then 0
    else FreedCount(start, run, s, n - 1) +
         if run[n - 1].op == Unclaim(s) && IsSet(MaskAt(start, run, n - 1), s) then 1 else 0
  }

  /** Over any run at all, every win is either undone by a clearing or still visible. */
  lemma {:induction false} WinsBalance(start: bv64, run: seq<Step>, s: Slot, n: nat)
    requires n <= |run|
    ensures BitAt(start, run, s, 0) + WinCount(start, run, s, 0, n) ==
            FreedCount(start, run, s, n) + BitAt(start, run, s, n)
  {
    hide IsSet, After;
    if n > 0 {
      WinsBalance(start, run, s, n - 1);
      StepOnBit(MaskAt(start, run, n - 1), run[n - 1].op, s);
    }
  }

  // ------------------------------------------------------------ independence

  /** The steps on one slot, in order. */
  function Projected(run: seq<Step>, s: Slot, n: nat): (p: seq<Step>)
    requires n <= |run|
    ensures |p| <= n
  {
    if n == 0 then []
    else if run[n - 1].op.slot == s then Projected(run, s, n - 1) + [run[n - 1]]
    else Projected(run, s, n - 1)
  }

  lemma {:induction false} MaskAtPrefix(start: bv64, run: seq<Step>, more: seq<Step>, n: nat)
    requires n <= |run|
    ensures MaskAt(start, run + more, n) == MaskAt(start, run, n)
  {
    hide After;
    if n > 0 {
      MaskAtPrefix(start, run, more, n - 1);
    }
  }

  /** What happens to a slot depends on the steps on that slot alone: dropping all
      other threads' work on other slots changes neither its bit nor any outcome. */
  lemma {:induction false} SlotsAreIndependent(start: bv64, run: seq<Step>, s: Slot, n: nat)
    requires n <= |run|
    ensures var own := Projected(run, s, n);
            IsSet(MaskAt(start, run, n), s) <==> IsSet(MaskAt(start, own, |own|), s)
  {
    hide IsSet, After;
    if n > 0 {
      SlotsAreIndependent(start, run, s, n - 1);
      var before := Projected(run, s, n - 1);
      StepOnBit(MaskAt(start, run, n - 1), run[n - 1].op, s);
      if run[n - 1].op.slot == s {
        MaskAtPrefix(start, before, [run[n - 1]], |before|);
        StepOnBit(MaskAt(start, before, |before|), run[n - 1].op, s);
      }
    }
  }

  lemma {:induction false} OutcomesAreIndependent(start: bv64, run: seq<Step>, s: Slot, n: nat)
    requires n < |run| && run[n].op.slot == s
    ensures var own := Projected(run, s, n + 1);
            |own| > 0 && own[|own| - 1] == run[n] && (Won(start, run, n) <==> Won(start, own, |own| - 1))
  {
    hide IsSet, After;
    SlotsAreIndependent(start, run, s, n);
    MaskAtPrefix(start, Projected(run, s, n), [run[n]], |Projected(run, s, n)|);
  }

  // ------------------------------------------------- why one atomic operation

  /** A claim split into a read and a later write, by two threads. */
  datatype SplitOp = Read(thread: nat) | Write(thread: nat)

  datatype SplitState = SplitState(mask: bv64, sawFree: set<nat>, winners: set<nat>)

  function SplitStep(st: SplitState, s: Slot, op: SplitOp): SplitState {
    match op
    case Read(t) => if IsSet(st.mask, s) then st else st.(sawFree := st.sawFree + {t})
    case Write(t) =>
      if t in st.sawFree then SplitState(After(st.mask, Claim(s)), st.sawFree, st.winners + {t}) else st
  }

  function SplitRun(st: SplitState, s: Slot, ops: seq<SplitOp>): SplitState
    decreases |ops|
  {
    if ops == [] then st else SplitRun(SplitStep(st, s, ops[0]), s, ops[1..])
  }

  /** Had the claim been a read followed by a write, two threads could both win. */
  lemma {:induction false} SplitClaimHasTwoWinners(s: Slot)
    ensures SplitRun(SplitState(0, {}, {}), s, [Read(1), Read(2), Write(1), Write(2)]).winners == {1, 2}
  {
    var a := SplitState(0, {}, {});
    var ops := [Read(1), Read(2), Write(1), Write(2)];
    assert !IsSet(0, s);
    assert ops[1..] == [Read(2), Write(1), Write(2)] && ops[1..][1..] == [Write(1), Write(2)];
    assert ops[1..][1..][1..] == [Write(2)];
    var b := SplitStep(a, s, ops[0]);
    var c := SplitStep(b, s, Read(2));
    var d := SplitStep(c, s, Write(1));
    var e := SplitStep(d, s, Write(2));
    assert SplitRun(d, s, [Write(2)]) == e;
    assert SplitRun(c, s, [Write(1), Write(2)]) == e;
  }
}
