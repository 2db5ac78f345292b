/** Busy and idle accounting of a worker's execution records, and the validator that
    decides whether those records can be trusted. */
module Accounting {

  /** Of a record only the job and its time range matter here. */
  datatype Rec = Rec(job: nat, start: int, end: int)

  // ------------------------------------------------------------------ sorting

  /** The two sort keys: the start alone, or start and end. */
  datatype Key = ByStart | ByRange

  predicate InOrder(a: Rec, b: Rec, key: Key) {
    a.start < b.start || (a.start == b.start && (key.ByRange? ==> a.end <= b.end))
  }

  function Insert(rs: seq<Rec>, r: Rec, key: Key): (out: seq<Rec>)
    ensures |out| == |rs| + 1 && multiset(out) == multiset(rs) + multiset{r}
  {
    if rs == [] then [r]
    else
      var n := |rs| - 1;
      assert rs == rs[..n] + [rs[n]];
      if InOrder(rs[n], r, key) then rs + [r] else Insert(rs[..n], r, key) + [rs[n]]
  }

  /** Python's `sorted`: stable, and a permutation. */
  function Sort(rs: seq<Rec>, key: Key): (out: seq<Rec>)
    ensures |out| == |rs| && multiset(out) == multiset(rs)
  {
    if rs == [] then []
    else
      var n := |rs| - 1;
      assert rs == rs[..n] + [rs[n]];
      Insert(Sort(rs[..n], key), rs[n], key)
  }

  predicate IsSorted(rs: seq<Rec>, key: Key) {
    forall i, j | 0 <= i < j < |rs| :: InOrder(rs[i], rs[j], key)
  }

  lemma {:induction false} AppendKeepsOrder(rs: seq<Rec>, r: Rec, key: Key)
    requires IsSorted(rs, key) && forall x <- rs :: InOrder(x, r, key)
    ensures IsSorted(rs + [r], key)
  {
    hide InOrder;
    forall i, j | 0 <= i < j < |rs + [r]| ensures InOrder((rs + [r])[i], (rs + [r])[j], key) {
      assert (rs + [r])[i] == rs[i] && rs[i] in rs;
    }
  }

  lemma {:induction false} InOrderIsTotal(a: Rec, b: Rec, c: Rec, key: Key)
    ensures !InOrder(a, b, key) ==> InOrder(b, a, key)
    ensures InOrder(a, b, key) && InOrder(b, c, key) ==> InOrder(a, c, key)
  {
  }

  lemma {:induction false} InsertKeepsOrder(rs: seq<Rec>, r: Rec, key: Key)
    requires IsSorted(rs, key)
    ensures IsSorted(Insert(rs, r, key), key)
    ensures forall x <- Insert(rs, r, key) :: x in rs || x == r
  {
    hide InOrder;
    if rs == [] {
      assert Insert(rs, r, key) == [r];
    } else {
      var n := |rs| - 1;
      if InOrder(rs[n], r, key) {
        forall x | x in rs ensures InOrder(x, r, key) {
          var k :| 0 <= k < |rs| && rs[k] == x;
          InOrderIsTotal(x, rs[n], r, key);
        }
        AppendKeepsOrder(rs, r, key);
      } else {
        InsertKeepsOrder(rs[..n], r, key);
        InOrderIsTotal(rs[n], r, r, key);
        AppendKeepsOrder(Insert(rs[..n], r, key), rs[n], key);
      }
    }
  }

  lemma {:induction false} SortSorts(rs: seq<Rec>, key: Key)
    ensures IsSorted(Sort(rs, key), key)
  {
    if rs != [] {
      SortSorts(rs[..|rs| - 1], key);
      InsertKeepsOrder(Sort(rs[..|rs| - 1], key), rs[|rs| - 1], key);
    }
  }

  lemma {:induction false} SortKeepsMembers(rs: seq<Rec>, key: Key)
    ensures forall r :: r in Sort(rs, key) <==> r in rs
  {
    forall r ensures r in Sort(rs, key) <==> r in rs {
      assert r in Sort(rs, key) <==> r in multiset(Sort(rs, key));
      assert r in rs <==> r in multiset(rs);
    }
  }

  // ---------------------------------------------------------------- validator

  datatype Problem =
    | InvalidRange(worker: nat, job: nat, start: int, end: int)
    | Overlapping(worker: nat, job: nat, end: int, nextJob: nat, nextStart: int, overlap: int)
    | ShortTask(worker: nat, job: nat, duration: int)

  function RangeErrors(worker: nat, rs: seq<Rec>, n: nat): seq<Problem>
    requires n <= |rs|
  {
    if n == 0 then []
    else
      var before, r := RangeErrors(worker, rs, n - 1), rs[n - 1];
      if r.start >= r.end then before + [InvalidRange(worker, r.job, r.start, r.end)] else before
  }

  function OverlapErrors(worker: nat, rs: seq<Rec>, n: nat): seq<Problem>
    requires n <= |rs|
  {
    if n <= 1 then []
    else
      var before, prev, curr := OverlapErrors(worker, rs, n - 1), rs[n - 2], rs[n - 1];
      if curr.start < prev.end
      then before + [Overlapping(worker, prev.job, prev.end, curr.job, curr.start, prev.end - curr.start)]
      else before
  }

  function ShortWarnings(worker: nat, rs: seq<Rec>, n: nat): seq<Problem>
    requires n <= |rs|
  {
    if n == 0 then []
    else
      var before, r := ShortWarnings(worker, rs, n - 1), rs[n - 1];
      if r.end - r.start < 100 then before + [ShortTask(worker, r.job, r.end - r.start)] else before
  }

  function ErrorsOf(worker: nat, records: seq<Rec>): seq<Problem> {
    var rs := Sort(records, ByStart);
    RangeErrors(worker, rs, |rs|) + OverlapErrors(worker, rs, |rs|)
  }

  function WarningsOf(worker: nat, records: seq<Rec>): seq<Problem> {
    var rs := Sort(records, ByStart);
    ShortWarnings(worker, rs, |rs|)
  }

  function AllErrors(workers: seq<(nat, seq<Rec>)>, n: nat): seq<Problem>
    requires n <= |workers|
  {
    if n == 0 then [] else AllErrors(workers, n - 1) + ErrorsOf(workers[n - 1].0, workers[n - 1].1)
  }

  /** Collects the problems of every worker it is shown. */
  class SchedulerValidator {
    var errors: seq<Problem>
    var warnings: seq<Problem>

    constructor ()
      ensures errors == [] && warnings == []
    {
      errors, warnings := [], [];
    }

    /** Check 1: every record starts before it ends. */
    method CheckRanges(worker: nat, sorted: seq<Rec>)
      modifies this`errors
      ensures errors == old(errors) + RangeErrors(worker, sorted, |sorted|)
    {
      for i := 0 to |sorted|
        invariant errors == old(errors) + RangeErrors(worker, sorted, i)
      {
        var rec := sorted[i];
        if rec.start >= rec.end {
          errors := errors + [InvalidRange(worker, rec.job, rec.start, rec.end)];
        }
      }
    }

    /** Check 2: no record starts before its predecessor has ended. */
    method CheckOverlaps(worker: nat, sorted: seq<Rec>)
      requires sorted != []
      modifies this`errors
      ensures errors == old(errors) + OverlapErrors(worker, sorted, |sorted|)
    {
      for i := 1 to |sorted|
        invariant errors == old(errors) + OverlapErrors(worker, sorted, i)
      {
        var prev, curr := sorted[i - 1], sorted[i];
        if curr.start < prev.end {
          errors := errors + [Overlapping(worker, prev.job, prev.end, curr.job, curr.start, prev.end - curr.start)];
        }
      }
    }

    /** Check 3: suspiciously short records. */
    method WarnShort(worker: nat, sorted: seq<Rec>)
      modifies this`warnings
      ensures warnings == old(warnings) + ShortWarnings(worker, sorted, |sorted|)
    {
      for i := 0 to |sorted|
        invariant warnings == old(warnings) + ShortWarnings(worker, sorted, i)
      {
        var rec := sorted[i];
        var duration := rec.end - rec.start;
        if duration < 100 {
          warnings := warnings + [ShortTask(worker, rec.job, duration)];
        }
      }
    }

    /** The verdict is about everything seen so far, not about this worker alone. */
    method ValidateWorkerRecords(worker: nat, records: seq<Rec>) returns (ok: bool)
      modifies this
      ensures errors == old(errors) + ErrorsOf(worker, records)
      ensures warnings == old(warnings) + WarningsOf(worker, records)
      ensures ok <==> records == [] || errors == []
      ensures (ok <==> Trustworthy(records)) <==> old(errors) == [] || records == [] || !Trustworthy(records)
    {
      NoErrorsExactly(worker, records);
      NoRecordsNoErrors(worker);
      hide Trustworthy, Sort, RangeErrors, OverlapErrors, ShortWarnings;
      if records == [] {
        hide ErrorsOf, WarningsOf;
        return true;
      }
      var sorted := Sort(records, ByStart);
      CheckRanges(worker, sorted);
      CheckOverlaps(worker, sorted);
      WarnShort(worker, sorted);
      hide ErrorsOf, WarningsOf;
      ok := |errors| == 0;
    }

    /** With a fresh validator the overall verdict is "no error anywhere". */
    method ValidateAll(workers: seq<(nat, seq<Rec>)>) returns (allValid: bool)
      modifies this
      ensures errors == old(errors) + AllErrors(workers, |workers|)
      ensures old(errors) == [] ==> (allValid <==> errors == [])
    {
      hide ErrorsOf, WarningsOf;
      allValid := true;
      ghost var before := errors;
      for i := 0 to |workers|
        invariant errors == before + AllErrors(workers, i)
        invariant before == [] ==> (allValid <==> errors == [])
      {
        NoRecordsNoErrors(workers[i].0);
        var ok := ValidateWorkerRecords(workers[i].0, workers[i].1);
        if !ok {
          allValid := false;
        }
        assert errors == before + AllErrors(workers, i + 1);
      }
    }
  }

  /** A worker in good order is reported invalid once a worker before it was. */
  method ShowTwoWorkers(bad: seq<Rec>, good: seq<Rec>) returns (badOk: bool, goodOk: bool)
    requires !Trustworthy(bad) && Trustworthy(good) && good != []
    ensures !badOk && !goodOk
  {
    var validator := new SchedulerValidator();
    NoErrorsExactly(0, bad);
    hide Trustworthy, ErrorsOf, WarningsOf;
    badOk := validator.ValidateWorkerRecords(0, bad);
    goodOk := validator.ValidateWorkerRecords(1, good);
  }

  /** Two overlapping records, then one that overlaps nothing. */
  method CleanWorkerIsBlamed() returns (verdict: bool)
    ensures !verdict
  {
    var bad, good := [Rec(0, 0, 200), Rec(1, 100, 300)], [Rec(2, 0, 200)];
    assert !Disjoint(bad[0], bad[1]);
    var _, goodOk := ShowTwoWorkers(bad, good);
    verdict := goodOk;
  }

  lemma {:induction false} NoRecordsNoErrors(worker: nat)
    ensures ErrorsOf(worker, []) == [] && WarningsOf(worker, []) == []
  {
  }

  predicate Disjoint(a: Rec, b: Rec) {
    a.end <= b.start || b.end <= a.start
  }

  /** Every range is non-empty and no two of them overlap. */
  predicate Trustworthy(rs: seq<Rec>) {
    && (forall i | 0 <= i < |rs| :: rs[i].start < rs[i].end)
    && (forall i, j | 0 <= i < j < |rs| :: Disjoint(rs[i], rs[j]))
  }

  predicate Consecutive(rs: seq<Rec>, n: nat)
    requires n <= |rs|
  {
    forall i | 1 <= i < n :: rs[i - 1].end <= rs[i].start
  }

  lemma {:induction false} NoRangeErrors(worker: nat, rs: seq<Rec>, n: nat)
    requires n <= |rs|
    ensures RangeErrors(worker, rs, n) == [] <==> forall i | 0 <= i < n :: rs[i].start < rs[i].end
  {
    if n > 0 {
      NoRangeErrors(worker, rs, n - 1);
    }
  }

  lemma {:induction false} NoOverlapErrors(worker: nat, rs: seq<Rec>, n: nat)
    requires n <= |rs|
    ensures OverlapErrors(worker, rs, n) == [] <==> Consecutive(rs, n)
  {
    if n > 1 {
      NoOverlapErrors(worker, rs, n - 1);
    }
  }

  /** For non-empty ranges in consecutive order, all earlier ones end first. */
  lemma {:induction false} ConsecutiveReaches(rs: seq<Rec>, i: nat, j: nat)
    requires i < j < |rs| && Consecutive(rs, |rs|)
    requires forall k | 0 <= k < |rs| :: rs[k].start < rs[k].end
    ensures rs[i].end <= rs[j].start
  {
    if i + 1 < j {
      ConsecutiveReaches(rs, i, j - 1);
      assert rs[j - 1].end <= rs[j].start;
    }
  }

  lemma {:induction false} SortedTrustworthy(rs: seq<Rec>, key: Key)
    requires IsSorted(rs, key) && forall k | 0 <= k < |rs| :: rs[k].start < rs[k].end
    ensures Consecutive(rs, |rs|) <==> Trustworthy(rs)
  {
    if Consecutive(rs, |rs|) {
      forall i, j | 0 <= i < j < |rs| ensures Disjoint(rs[i], rs[j]) {
        ConsecutiveReaches(rs, i, j);
      }
    } else {
      var i :| 1 <= i < |rs| && rs[i - 1].end > rs[i].start;
      assert InOrder(rs[i - 1], rs[i], key);
      assert !Disjoint(rs[i - 1], rs[i]);
    }
  }

  /** The validator reports nothing exactly when every range is non-empty and no two
      records, in whatever order they were given, overlap. */
  lemma {:induction false} NoErrorsExactly(worker: nat, records: seq<Rec>)
    ensures ErrorsOf(worker, records) == [] <==> Trustworthy(records)
  {
    var rs := Sort(records, ByStart);
    SortSorts(records, ByStart);
    NoRangeErrors(worker, rs, |rs|);
    NoOverlapErrors(worker, rs, |rs|);
    PermutationKeepsTrust(records, rs);
    if forall k | 0 <= k < |rs| :: rs[k].start < rs[k].end {
      SortedTrustworthy(rs, ByStart);
    }
  }

  /** Trustworthiness does not depend on the order of the records. */
  lemma {:induction false} PermutationKeepsTrust(a: seq<Rec>, b: seq<Rec>)
    requires multiset(a) == multiset(b)
    ensures Trustworthy(a) <==> Trustworthy(b)
  {
    if Trustworthy(a) { TrustCarriesOver(a, b); }
    if Trustworthy(b) { TrustCarriesOver(b, a); }
  }

  lemma {:induction false} TrustCarriesOver(a: seq<Rec>, b: seq<Rec>)
    requires multiset(a) == multiset(b) && Trustworthy(a)
    ensures Trustworthy(b)
  {
    forall j | 0 <= j < |b| ensures b[j].start < b[j].end {
      assert b[j] in multiset(b);
      var i :| 0 <= i < |a| && a[i] == b[j];
    }
    forall i, j | 0 <= i < j < |b| ensures Disjoint(b[i], b[j]) {
      var x, y := FindTwo(a, b, i, j);
    }
  }

  function Without(s: seq<Rec>, k: nat): seq<Rec>
    requires k < |s|
  {
    s[..k] + s[k + 1..]
  }

  lemma {:induction false} WithoutOne(s: seq<Rec>, k: nat)
    requires k < |s|
    ensures multiset(Without(s, k)) == multiset(s) - multiset{s[k]}
  {
    assert s == s[..k] + [s[k]] + s[k + 1..];
  }

  lemma {:induction false} IndexOf(s: seq<Rec>, r: Rec) returns (k: nat)
    requires r in multiset(s)
    ensures k < |s| && s[k] == r
  {
    k :| 0 <= k < |s| && s[k] == r;
  }

  /** Two entries of a permutation come from two different places. */
  lemma {:induction false} FindTwo(a: seq<Rec>, b: seq<Rec>, i: nat, j: nat) returns (x: nat, y: nat)
    requires multiset(a) == multiset(b) && i < j < |b|
    ensures x < |a| && y < |a| && x != y && a[x] == b[i] && a[y] == b[j]
  {
    assert b[i] in multiset(b);
    x := IndexOf(a, b[i]);
    WithoutOne(a, x);
    WithoutOne(b, i);
    assert Without(b, i)[j - 1] == b[j];
    assert b[j] in multiset(Without(b, i));
    var z := IndexOf(Without(a, x), b[j]);
    y := if z < x then z else z + 1;
  }

  // --------------------------------------------------------------- idle time

  datatype Breakdown = Breakdown(
    numTasks: nat,
    totalSpan: int,
    workerSpan: int,
    busy: int,
    idle: int,
    startupDelay: int,
    interTaskIdle: int,
    tailIdle: int,
    largeGaps: seq<(nat, int)>,
    schedulingOverhead: int,
    gaps: seq<int>)

  function Busy(rs: seq<Rec>, n: nat): int
    requires n <= |rs|
  {
    if n == 0 then 0 else Busy(rs, n - 1) + rs[n - 1].end - rs[n - 1].start
  }

  function GapAt(rs: seq<Rec>, i: nat): int
    requires 1 <= i < |rs|
  {
    rs[i].start - rs[i - 1].end
  }

  /** Positive gaps among the first n records, in order. */
  function Gaps(rs: seq<Rec>, n: nat): seq<int>
    requires n <= |rs|
  {
    if n <= 1 then []
    else if GapAt(rs, n - 1) > 0 then Gaps(rs, n - 1) + [GapAt(rs, n - 1)]
    else Gaps(rs, n - 1)
  }

  function LargeGaps(rs: seq<Rec>, n: nat, threshold: nat): seq<(nat, int)>
    requires n <= |rs|
  {
    if n <= 1 then []
    else if GapAt(rs, n - 1) > threshold then LargeGaps(rs, n - 1, threshold) + [(n - 1, GapAt(rs, n - 1))]
    else LargeGaps(rs, n - 1, threshold)
  }

  function Sum(xs: seq<int>): int {
    if xs == [] then 0 else Sum(xs[..|xs| - 1]) + xs[|xs| - 1]
  }

  function SumLarge(xs: seq<(nat, int)>): int {
    if xs == [] then 0 else SumLarge(xs[..|xs| - 1]) + xs[|xs| - 1].1
  }

  /** Total time by which a record, in sorted order, starts before its predecessor ends. */
  function Overlap(rs: seq<Rec>, n: nat): nat
    requires n <= |rs|
  {
    if n <= 1 then 0
    else Overlap(rs, n - 1) + if GapAt(rs, n - 1) < 0 then -GapAt(rs, n - 1) else 0
  }

  lemma {:induction false} SumOneMore(xs: seq<int>, x: int)
    ensures Sum(xs + [x]) == Sum(xs) + x
  {
    assert (xs + [x])[..|xs + [x]| - 1] == xs;
  }

  lemma {:induction false} SumLargeOneMore(xs: seq<(nat, int)>, x: (nat, int))
    ensures SumLarge(xs + [x]) == SumLarge(xs) + x.1
  {
    assert (xs + [x])[..|xs + [x]| - 1] == xs;
  }

  /** The method's result, part by part. */
  ghost predicate Describes(b: Breakdown, records: seq<Rec>, globalStart: int, globalEnd: int, threshold: nat) {
    var rs := Sort(records, ByRange);
    && b.numTasks == |records|
    && b.totalSpan == globalEnd - globalStart
    && if rs == [] then b == Breakdown(0, b.totalSpan, 0, 0, b.totalSpan, 0, 0, b.totalSpan, [], 0, [])
       else PartsOf(b, rs, globalStart, globalEnd, threshold)
  }

  ghost predicate PartsOf(b: Breakdown, rs: seq<Rec>, globalStart: int, globalEnd: int, threshold: nat)
    requires rs != []
  {
    var n := |rs|;
    && b.workerSpan == rs[n - 1].end - rs[0].start
    && b.busy == Busy(rs, n)
    && b.startupDelay == rs[0].start - globalStart
    && b.tailIdle == globalEnd - rs[n - 1].end
    && b.gaps == Gaps(rs, n)
    && b.largeGaps == LargeGaps(rs, n, threshold)
    && b.interTaskIdle == SumLarge(b.largeGaps)
    && b.interTaskIdle + b.schedulingOverhead == Sum(b.gaps)
    && b.idle == b.startupDelay + b.interTaskIdle + b.schedulingOverhead + b.tailIdle
  }

  lemma {:induction false} NoGapsYet(rs: seq<Rec>, threshold: nat)
    ensures Sum([]) == 0 && SumLarge([]) == 0
    ensures forall n | 0 <= n <= 1 && n <= |rs| :: Gaps(rs, n) == [] && LargeGaps(rs, n, threshold) == []
  {
  }

  lemma {:induction false} OneMoreGap(rs: seq<Rec>, i: nat, threshold: nat)
    requires 1 <= i < |rs|
    ensures var gap := rs[i].start - rs[i - 1].end;
            && Gaps(rs, i + 1) == Gaps(rs, i) + (if gap > 0 then [gap] else [])
            && LargeGaps(rs, i + 1, threshold) ==
                 LargeGaps(rs, i, threshold) + (if gap > threshold then [(i, gap)] else [])
  {
  }

  /** Gaps above the threshold are idle time, the others scheduling overhead. */
  method MeasureGaps(intervals: seq<Rec>, threshold: nat)
      returns (interTaskIdle: int, schedulingOverhead: int, largeGaps: seq<(nat, int)>, gaps: seq<int>)
    ensures gaps == Gaps(intervals, |intervals|) && largeGaps == LargeGaps(intervals, |intervals|, threshold)
    ensures interTaskIdle == SumLarge(largeGaps) && interTaskIdle + schedulingOverhead == Sum(gaps)
  {
    interTaskIdle, schedulingOverhead, largeGaps, gaps := 0, 0, [], [];
    NoGapsYet(intervals, threshold);
    hide *;
    if |intervals| <= 1 {
      return;
    }
    for i := 1 to |intervals|
      invariant gaps == Gaps(intervals, i) && largeGaps == LargeGaps(intervals, i, threshold)
      invariant interTaskIdle == SumLarge(largeGaps) && interTaskIdle + schedulingOverhead == Sum(gaps)
    {
      var gap := intervals[i].start - intervals[i - 1].end;
      OneMoreGap(intervals, i, threshold);
      if gap > 0 {
        SumOneMore(gaps, gap);
        gaps := gaps + [gap];
        if gap > threshold {
          SumLargeOneMore(largeGaps, (i, gap));
          largeGaps := largeGaps + [(i, gap)];
          interTaskIdle := interTaskIdle + gap;
        } else {
          schedulingOverhead := schedulingOverhead + gap;
        }
      }
    }
  }

  method CalculateIdleTime(records: seq<Rec>, globalStart: int, globalEnd: int, threshold: nat) returns (b: Breakdown)
    ensures Describes(b, records, globalStart, globalEnd, threshold)
  {
    var totalSpan := globalEnd - globalStart;
    if records == [] {
      return Breakdown(0, totalSpan, 0, 0, totalSpan, 0, 0, totalSpan, [], 0, []);
    }
    hide Sort, Gaps, LargeGaps, Sum, SumLarge;
    var intervals := Sort(records, ByRange);
    var n := |intervals|;
    var firstStart, lastEnd := intervals[0].start, intervals[n - 1].end;
    var busy := 0;
    for i := 0 to n
      invariant busy == Busy(intervals, i)
    {
      busy := busy + (intervals[i].end - intervals[i].start);
    }
    var interTaskIdle, schedulingOverhead, largeGaps, gaps := MeasureGaps(intervals, threshold);
    var startupDelay, tailIdle := firstStart - globalStart, globalEnd - lastEnd;
    b := Breakdown(n, totalSpan, lastEnd - firstStart, busy,
                   startupDelay + interTaskIdle + schedulingOverhead + tailIdle,
                   startupDelay, interTaskIdle, tailIdle, largeGaps, schedulingOverhead, gaps);
  }

  /** Busy time and gaps telescope, up to what overlaps. */
  lemma {:induction false} Telescope(rs: seq<Rec>, n: nat)
    requires 0 < n <= |rs|
    ensures Busy(rs, n) + Sum(Gaps(rs, n)) == rs[n - 1].end - rs[0].start + Overlap(rs, n)
  {
    if n > 1 {
      Telescope(rs, n - 1);
      if GapAt(rs, n - 1) > 0 {
        SumOneMore(Gaps(rs, n - 1), GapAt(rs, n - 1));
      }
    }
  }

  lemma {:induction false} NoOverlapExactly(rs: seq<Rec>, n: nat)
    requires n <= |rs|
    ensures Overlap(rs, n) == 0 <==> Consecutive(rs, n)
  {
    if n > 1 {
      NoOverlapExactly(rs, n - 1);
    }
  }

  /** Time is conserved: busy plus idle is the global span plus the overlap between
      consecutive records; it is the span itself exactly when there is none. */
  lemma {:induction false} TimeIsConserved(records: seq<Rec>, globalStart: int, globalEnd: int, threshold: nat,
          b: Breakdown)
    requires Describes(b, records, globalStart, globalEnd, threshold)
    ensures var rs := Sort(records, ByRange);
            && b.busy + b.idle == b.totalSpan + Overlap(rs, |rs|)
            && (b.busy + b.idle == b.totalSpan <==> Consecutive(rs, |rs|))
  {
    var rs := Sort(records, ByRange);
    NoOverlapExactly(rs, |rs|);
    if |rs| > 0 {
      Telescope(rs, |rs|);
    }
  }

  /** Records the validator accepts account for the span exactly; if they also lie
      inside the global range, no component is negative and busy fits into the span. */
  lemma {:induction false} ValidRecordsAddUp(worker: nat, records: seq<Rec>, globalStart: int, globalEnd: int,
          threshold: nat,
                                             b: Breakdown)
    requires ErrorsOf(worker, records) == [] && globalStart <= globalEnd
    requires Describes(b, records, globalStart, globalEnd, threshold)
    ensures b.busy + b.idle == b.totalSpan
    ensures (forall r <- records :: globalStart <= r.start && r.end <= globalEnd) ==>
              && 0 <= b.startupDelay && 0 <= b.interTaskIdle && 0 <= b.schedulingOverhead && 0 <= b.tailIdle
              && 0 <= b.busy <= b.totalSpan
  {
    var rs := Sort(records, ByRange);
    TrustedAreConsecutive(worker, records);
    TimeIsConserved(records, globalStart, globalEnd, threshold, b);
    SortKeepsMembers(records, ByRange);
    hide Sort, Busy, Gaps, LargeGaps, Sum, SumLarge, Consecutive, Overlap;
    if rs != [] {
      assert rs[0] in rs && rs[|rs| - 1] in rs;
      BusyIsPositive(rs, |rs|);
      OverheadIsPositive(rs, |rs|, threshold);
    }
  }

  lemma {:induction false} TrustedAreConsecutive(worker: nat, records: seq<Rec>)
    requires ErrorsOf(worker, records) == []
    ensures var rs := Sort(records, ByRange);
            Consecutive(rs, |rs|) && forall k | 0 <= k < |rs| :: rs[k].start < rs[k].end
  {
    var rs := Sort(records, ByRange);
    SortSorts(records, ByRange);
    NoErrorsExactly(worker, records);
    PermutationKeepsTrust(records, rs);
    SortedTrustworthy(rs, ByRange);
  }

  lemma {:induction false} BusyIsPositive(rs: seq<Rec>, n: nat)
    requires n <= |rs| && forall k | 0 <= k < |rs| :: rs[k].start < rs[k].end
    ensures Busy(rs, n) >= 0
  {
    if n > 0 {
      BusyIsPositive(rs, n - 1);
    }
  }

  lemma {:induction false} OverheadIsPositive(rs: seq<Rec>, n: nat, threshold: nat)
    requires n <= |rs|
    ensures 0 <= SumLarge(LargeGaps(rs, n, threshold)) <= Sum(Gaps(rs, n))
  {
    if n > 1 {
      OverheadIsPositive(rs, n - 1, threshold);
      SumOneMore(Gaps(rs, n - 1), GapAt(rs, n - 1));
      SumLargeOneMore(LargeGaps(rs, n - 1, threshold), (n - 1, GapAt(rs, n - 1)));
    }
  }

  // -------------------------------------------------------- order of the input

  predicate SameRange(a: Rec, b: Rec) {
    a.start == b.start && a.end == b.end
  }

  function Ranges(rs: seq<Rec>): seq<(int, int)> {
    seq(|rs|, i requires 0 <= i < |rs| => (rs[i].start, rs[i].end))
  }

  lemma {:induction false} SameRanges(a: seq<Rec>, b: seq<Rec>)
    requires multiset(a) == multiset(b)
    ensures |a| == |b| && Ranges(Sort(a, ByRange)) == Ranges(Sort(b, ByRange))
  {
    assert |a| == |multiset(a)| == |multiset(b)| == |b|;
    SortSorts(a, ByRange);
    SortSorts(b, ByRange);
    SortedPermutationsAgree(Sort(a, ByRange), Sort(b, ByRange));
  }

  /** Every component is computed from the ranges alone. */
  lemma {:induction false} RangesDecide(a: seq<Rec>, b: seq<Rec>, n: nat, threshold: nat)
    requires Ranges(a) == Ranges(b) && n <= |a|
    ensures |a| == |b| && forall i | 0 <= i < |a| :: a[i].start == b[i].start && a[i].end == b[i].end
    ensures Busy(a, n) == Busy(b, n) && Gaps(a, n) == Gaps(b, n) &&
            LargeGaps(a, n, threshold) == LargeGaps(b, n, threshold)
  {
    assert |a| == |Ranges(a)| == |Ranges(b)| == |b|;
    assert forall i | 0 <= i < |a| :: Ranges(a)[i] == (a[i].start, a[i].end) && Ranges(b)[i] == (b[i].start, b[i].end);
    if n > 0 {
      RangesDecide(a, b, n - 1, threshold);
    }
  }

  /** The breakdown does not depend on the order the records are read in. */
  lemma {:induction false} OrderDoesNotMatter(a: seq<Rec>, b: seq<Rec>, globalStart: int, globalEnd: int,
          threshold: nat,
          ba: Breakdown, bb: Breakdown)
    requires multiset(a) == multiset(b)
    requires Describes(ba, a, globalStart, globalEnd, threshold) && Describes(bb, b, globalStart, globalEnd, threshold)
    ensures ba == bb
  {
    SortedAlike(a, b, threshold);
    DescribesMeans(ba, a, globalStart, globalEnd, threshold);
    DescribesMeans(bb, b, globalStart, globalEnd, threshold);
    hide *;
    if a != [] {
      PartsAgree(ba, bb, Sort(a, ByRange), Sort(b, ByRange), globalStart, globalEnd, threshold);
    }
  }

  lemma {:induction false} DescribesMeans(b: Breakdown, records: seq<Rec>, globalStart: int, globalEnd: int,
          threshold: nat)
    requires Describes(b, records, globalStart, globalEnd, threshold)
    ensures b.numTasks == |records| && b.totalSpan == globalEnd - globalStart
    ensures if records == [] then b == Breakdown(0, b.totalSpan, 0, 0, b.totalSpan, 0, 0, b.totalSpan, [], 0, [])
            else Sort(records, ByRange) != [] && PartsOf(b, Sort(records, ByRange), globalStart, globalEnd, threshold)
  {
    hide Sort, PartsOf;
  }

  lemma {:induction false} SortedAlike(a: seq<Rec>, b: seq<Rec>, threshold: nat)
    requires multiset(a) == multiset(b)
    ensures var sa, sb := Sort(a, ByRange), Sort(b, ByRange);
            && |a| == |b| == |sa| == |sb|
            && (sa != [] ==> sa[0].start == sb[0].start && sa[|sa| - 1].end == sb[|sb| - 1].end)
            && Busy(sa, |sa|) == Busy(sb, |sb|) && Gaps(sa, |sa|) == Gaps(sb, |sb|)
            && LargeGaps(sa, |sa|, threshold) == LargeGaps(sb, |sb|, threshold)
  {
    hide *;
    SameRanges(a, b);
    var sa, sb := Sort(a, ByRange), Sort(b, ByRange);
    RangesDecide(sa, sb, |a|, threshold);
  }

  lemma {:induction false} PartsAgree(ba: Breakdown, bb: Breakdown, sa: seq<Rec>, sb: seq<Rec>, globalStart: int,
          globalEnd: int, threshold: nat)
    requires |sa| == |sb| > 0 && sa[0].start == sb[0].start && sa[|sa| - 1].end == sb[|sb| - 1].end
    requires Busy(sa, |sa|) == Busy(sb, |sb|) && Gaps(sa, |sa|) == Gaps(sb, |sb|)
    requires LargeGaps(sa, |sa|, threshold) == LargeGaps(sb, |sb|, threshold)
    requires PartsOf(ba, sa, globalStart, globalEnd, threshold) && PartsOf(bb, sb, globalStart, globalEnd, threshold)
    ensures ba.(numTasks := 0, totalSpan := 0) == bb.(numTasks := 0, totalSpan := 0)
  {
    hide Busy, Gaps, LargeGaps, Sum, SumLarge;
  }

  /** The largest entries of two sorted permutations have the same range. */
  lemma {:induction false} SameLargest(a: seq<Rec>, b: seq<Rec>) returns (k: nat)
    requires multiset(a) == multiset(b) && IsSorted(a, ByRange) && IsSorted(b, ByRange) && a != [] && b != []
    ensures k < |b| && b[k] == a[|a| - 1] && SameRange(b[k], b[|b| - 1])
  {
    var x, y := a[|a| - 1], b[|b| - 1];
    assert x in multiset(a) && y in multiset(b);
    k := IndexOf(b, x);
    var l := IndexOf(a, y);
    assert k < |b| - 1 ==> InOrder(b[k], y, ByRange);
    assert l < |a| - 1 ==> InOrder(a[l], x, ByRange);
  }

  lemma {:induction false} SortedPermutationsAgree(a: seq<Rec>, b: seq<Rec>)
    requires |a| == |b| && multiset(a) == multiset(b) && IsSorted(a, ByRange) && IsSorted(b, ByRange)
    ensures Ranges(a) == Ranges(b)
    decreases |a|
  {
    if a != [] {
      var n := |a| - 1;
      var k := SameLargest(a, b);
      WithoutOne(a, n);
      WithoutOne(b, k);
      RemovalKeepsOrder(a, n);
      RemovalKeepsOrder(b, k);
      SortedPermutationsAgree(Without(a, n), Without(b, k));
      SameTail(a, n);
      SameTail(b, k);
      RangesOneMore(a);
      RangesOneMore(b);
    }
  }

  lemma {:induction false} RangesOneMore(a: seq<Rec>)
    requires a != []
    ensures Ranges(a) == Ranges(a[..|a| - 1]) + [(a[|a| - 1].start, a[|a| - 1].end)]
  {
  }

  lemma {:induction false} RemovalKeepsOrder(b: seq<Rec>, k: nat)
    requires k < |b| && IsSorted(b, ByRange)
    ensures IsSorted(Without(b, k), ByRange)
  {
    hide InOrder;
    var rest := Without(b, k);
    forall i, j | 0 <= i < j < |rest| ensures InOrder(rest[i], rest[j], ByRange) {
      assert rest[i] == b[if i < k then i else i + 1] && rest[j] == b[if j < k then j else j + 1];
    }
  }

  /** Everything from a record equal to the largest on has the same range. */
  lemma {:induction false} SameTail(b: seq<Rec>, k: nat)
    requires k < |b| && IsSorted(b, ByRange) && SameRange(b[k], b[|b| - 1])
    ensures Ranges(Without(b, k)) == Ranges(b[..|b| - 1])
  {
    var rest, before := Without(b, k), b[..|b| - 1];
    forall i | 0 <= i < |before| ensures SameRange(rest[i], before[i]) {
      if i >= k {
        assert rest[i] == b[i + 1] && before[i] == b[i];
        assert i == k || InOrder(b[k], b[i], ByRange);
        assert InOrder(b[i], b[i + 1], ByRange);
        assert i + 1 == |b| - 1 || InOrder(b[i + 1], b[|b| - 1], ByRange);
      }
    }
  }
}
