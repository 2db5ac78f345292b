/** The asynchronous recorder: per-worker channels, a collector thread that drains
    them, a shutdown flag, and the CSV written afterwards. Sends, the flag and the
    collector's single operations interleave in any order. */
module Recorder {
  import opened Common

  datatype Record = Record(slot: nat, jobId: nat, startNs: nat, endNs: nat, worker: nat, taskId: nat, index: nat)

  /** A record together with the channel it was sent on. */
  datatype Tagged = Tagged(channel: nat, record: Record)

  type SlotMap = map<nat, seq<Record>>

  /** Where the collector thread is: about to load the flag, about to try channel
      `rx` of a (possibly final) pass, or past publication. */
  datatype Collector = AtCheck | Draining(rx: nat, last: bool) | Finished

  /** `sent`, `got` and `cut` are history: everything sent per channel, everything
      received in order, and how much had been sent when the flag was set. */
  datatype State = State(
    queued: seq<seq<Record>>,
    shutdown: bool,
    collector: Collector,
    bySlot: SlotMap,
    published: Option<SlotMap>,
    sent: seq<seq<Record>>,
    got: seq<Tagged>,
    cut: seq<nat>)

  datatype Step = Send(channel: nat, record: Record) | SetFlag | Collect

  /** `entry(slot).or_default().push(record)`. */
  function Push(m: SlotMap, r: Record): SlotMap {
    m[r.slot := (if r.slot in m then m[r.slot] else []) + [r]]
  }

  function Lengths(queues: seq<seq<Record>>): seq<nat> {
    seq(|queues|, c requires 0 <= c < |queues| => |queues[c]|)
  }

  function Init(channels: nat): State {
    var empty := seq(channels, c => []);
    State(empty, false, AtCheck, map[], None, empty, [], [])
  }

  /** One atomic step. A send after publication fails: the receivers are gone. */
  function Next(st: State, step: Step): State
    requires |st.sent| == |st.queued|
  {
    match step
    case Send(c, r) =>
      if c < |st.queued| && !st.collector.Finished?
      then st.(queued := st.queued[c := st.queued[c] + [r]], sent := st.sent[c := st.sent[c] + [r]])
      else st
    case SetFlag =>
      if st.shutdown then st else st.(shutdown := true, cut := Lengths(st.sent))
    case Collect =>
      match st.collector
      case AtCheck => st.(collector := Draining(0, st.shutdown))
      case Draining(rx, last) =>
        if rx < |st.queued| then
          if st.queued[rx] == [] then st.(collector := Draining(rx + 1, last))
          else
            var r := st.queued[rx][0];
            st.(queued := st.queued[rx := st.queued[rx][1..]], bySlot := Push(st.bySlot, r),
                got := st.got + [Tagged(rx, r)])
        else if last then st.(collector := Finished, published := Some(st.bySlot))
        else st.(collector := AtCheck)
      case Finished => st
  }

  /** What channel c contributed to a list of receptions, in order. */
  function From(got: seq<Tagged>, c: nat): seq<Record> {
    if got == [] then []
    else
      var before, last := From(got[..|got| - 1], c), got[|got| - 1];
      if last.channel == c then before + [last.record] else before
  }

  /** The receptions of one slot, in order. */
  function OfSlot(got: seq<Tagged>, s: nat): seq<Tagged> {
    if got == [] then []
    else
      var before, last := OfSlot(got[..|got| - 1], s), got[|got| - 1];
      if last.record.slot == s then before + [last] else before
  }

  function Records(got: seq<Tagged>): seq<Record> {
    if got == [] then [] else Records(got[..|got| - 1]) + [got[|got| - 1].record]
  }

  /** The slot map built by pushing the receptions one by one. */
  function Grouped(got: seq<Tagged>): SlotMap {
    if got == [] then map[] else Push(Grouped(got[..|got| - 1]), got[|got| - 1].record)
  }

  lemma {:induction false} OneMore(got: seq<Tagged>, t: Tagged, c: nat, s: nat)
    ensures From(got + [t], c) == if t.channel == c then From(got, c) + [t.record] else From(got, c)
    ensures OfSlot(got + [t], s) == if t.record.slot == s then OfSlot(got, s) + [t] else OfSlot(got, s)
    ensures Records(got + [t]) == Records(got) + [t.record]
    ensures Grouped(got + [t]) == Push(Grouped(got), t.record)
  {
    assert (got + [t])[..|got + [t]| - 1] == got;
  }

  // --------------------------------------------------------------- invariant

  /** Channel c: what was sent is what was received and then what is still queued. */
  ghost predicate Kept(st: State, c: nat)
    requires |st.sent| == |st.queued| && c < |st.queued|
  {
    st.sent[c] == From(st.got, c) + st.queued[c]
  }

  ghost predicate Conserved(st: State) {
    |st.sent| == |st.queued| && forall c | 0 <= c < |st.queued| :: Kept(st, c)
  }

  /** What was sent on channel c before the flag was set has been received. */
  ghost predicate PastTheCut(st: State, c: nat)
    requires c < |st.cut|
  {
    st.cut[c] <= |From(st.got, c)|
  }

  /** So for all channels below rx. */
  ghost predicate CaughtUp(st: State, rx: nat)
    requires rx <= |st.cut|
  {
    forall c | 0 <= c < rx :: PastTheCut(st, c)
  }

  ghost predicate CutExists(st: State) {
    |st.cut| == |st.sent| && forall c | 0 <= c < |st.sent| :: st.cut[c] <= |st.sent[c]|
  }

  ghost predicate Sound(st: State) {
    && Conserved(st)
    && (st.shutdown ==> CutExists(st))
    && (st.collector.Draining? ==> st.collector.rx <= |st.queued|)
    && (st.collector.Draining? && st.collector.last ==> st.shutdown && CaughtUp(st, st.collector.rx))
    && (st.published.Some? <==> st.collector.Finished?)
    && (st.collector.Finished? ==> st.shutdown && CaughtUp(st, |st.cut|) && st.published == Some(st.bySlot))
  }

  ghost predicate Inv(st: State) {
    Sound(st) && st.bySlot == Grouped(st.got)
  }

  lemma {:induction false} InitHolds(channels: nat)
    ensures Inv(Init(channels))
  {
  }

  lemma {:induction false} StillConserved(st: State, next: State)
    requires Conserved(st) && next.sent == st.sent && next.queued == st.queued && next.got == st.got
    ensures Conserved(next)
  {
    hide From;
    forall c | 0 <= c < |next.queued| ensures Kept(next, c) {
      assert Kept(st, c);
    }
  }

  lemma {:induction false} StillCaughtUp(st: State, next: State, rx: nat)
    requires rx <= |st.cut| && next.cut == st.cut && CaughtUp(st, rx)
    requires forall c | 0 <= c < rx :: |From(st.got, c)| <= |From(next.got, c)|
    ensures CaughtUp(next, rx)
  {
    hide From;
    forall c | 0 <= c < rx ensures PastTheCut(next, c) {
      assert PastTheCut(st, c);
    }
  }

  /** An empty channel is caught up with. */
  lemma {:induction false} EmptyIsCaughtUp(st: State, rx: nat)
    requires Conserved(st) && CutExists(st) && rx < |st.queued| && st.queued[rx] == [] && CaughtUp(st, rx)
    ensures CaughtUp(st, rx + 1)
  {
    hide From;
    assert Kept(st, rx);
  }

  lemma {:induction false} SendKeeps(st: State, c: nat, r: Record)
    requires Sound(st)
    ensures Sound(Next(st, Send(c, r)))
  {
    hide From, PastTheCut;
    var next := Next(st, Send(c, r));
    if c < |st.queued| && !st.collector.Finished? {
      forall k | 0 <= k < |st.queued| ensures Kept(next, k) {
        assert Kept(st, k);
        assert From(st.got, c) + (st.queued[c] + [r]) == (From(st.got, c) + st.queued[c]) + [r];
      }
      if st.collector.Draining? && st.collector.last {
        StillCaughtUp(st, next, st.collector.rx);
      }
    }
  }

  lemma {:induction false} ReceivedStaysConserved(st: State, rx: nat, c: nat)
    requires Conserved(st) && rx < |st.queued| && c < |st.queued| && st.queued[rx] != []
    ensures var got := st.got + [Tagged(rx, st.queued[rx][0])];
            && st.sent[c] == From(got, c) + st.queued[rx := st.queued[rx][1..]][c]
            && |From(got, c)| >= |From(st.got, c)|
  {
    hide From;
    var r := st.queued[rx][0];
    assert Kept(st, c);
    OneMore(st.got, Tagged(rx, r), c, r.slot);
    if c == rx {
      assert From(st.got, c) + st.queued[c] == (From(st.got, c) + [r]) + st.queued[c][1..];
    }
  }

  /** All other steps of the collector leave the data alone. */
  lemma {:induction false} TurnKeeps(st: State)
    requires Sound(st)
    requires st.collector.Draining? && st.collector.rx < |st.queued| ==> st.queued[st.collector.rx] == []
    ensures Sound(Next(st, Collect))
  {
    hide From, Kept, PastTheCut;
    var next := Next(st, Collect);
    StillConserved(st, next);
    if st.collector.Draining? && st.collector.last {
      if st.collector.rx < |st.queued| {
        EmptyIsCaughtUp(st, st.collector.rx);
      }
      StillCaughtUp(st, next, if next.collector.Draining? then st.collector.rx + 1 else |st.cut|);
    } else if st.collector.Finished? {
      assert next == st;
    } else if next.collector.Draining? {
      assert next.collector.last ==> next.collector.rx == 0;
    }
  }

  lemma {:induction false} CollectKeeps(st: State)
    requires Sound(st)
    ensures Sound(Next(st, Collect))
  {
    hide From, Push, PastTheCut;
    var next := Next(st, Collect);
    if st.collector.Draining? && st.collector.rx < |st.queued| && st.queued[st.collector.rx] != [] {
      var rx := st.collector.rx;
      OneMore(st.got, Tagged(rx, st.queued[rx][0]), rx, 0);
      forall c | 0 <= c < |st.queued|
        ensures Kept(next, c)
        ensures |From(next.got, c)| >= |From(st.got, c)|
      {
        ReceivedStaysConserved(st, rx, c);
      }
      if st.collector.last {
        StillCaughtUp(st, next, rx);
      }
    } else {
      TurnKeeps(st);
    }
  }

  lemma {:induction false} FlagKeeps(st: State)
    requires Sound(st)
    ensures Sound(Next(st, SetFlag))
  {
    hide From, Kept, PastTheCut;
    StillConserved(st, Next(st, SetFlag));
  }

  /** The collector's map groups what it has received. */
  lemma {:induction false} GroupingKeeps(st: State, step: Step)
    requires |st.sent| == |st.queued| && st.bySlot == Grouped(st.got)
    ensures Next(st, step).bySlot == Grouped(Next(st, step).got)
  {
    hide Grouped, Push;
    if step.Collect? && st.collector.Draining? && st.collector.rx < |st.queued| && st.queued[st.collector.rx] != [] {
      var rx := st.collector.rx;
      OneMore(st.got, Tagged(rx, st.queued[rx][0]), rx, 0);
    }
  }

  /** A run: any interleaving of senders, the flag and the collector. */
  ghost function Run(st: State, steps: seq<Step>): (after: State)
    requires Inv(st)
    ensures Inv(after)
  {
    if steps == [] then st
    else
      var before := Run(st, steps[..|steps| - 1]);
      GroupingKeeps(before, steps[|steps| - 1]);
      match steps[|steps| - 1]
      case Send(c, r) => SendKeeps(before, c, r); Next(before, Send(c, r))
      case SetFlag => FlagKeeps(before); Next(before, SetFlag)
      case Collect => CollectKeeps(before); Next(before, Collect)
  }

  lemma {:induction false} RunOneMore(st: State, steps: seq<Step>, step: Step)
    requires Inv(st)
    ensures Run(st, steps + [step]) == Next(Run(st, steps), step)
  {
    hide Inv, Next;
    assert (steps + [step])[..|steps + [step]| - 1] == steps;
  }

  lemma {:induction false} RunNothing(st: State)
    requires Inv(st)
    ensures Run(st, []) == st
  {
  }

  /** One step is a run, so it keeps the invariant. */
  lemma {:induction false} OneStep(st: State, step: Step)
    requires Inv(st)
    ensures Run(st, [step]) == Next(st, step)
  {
    hide Inv, Next;
    RunNothing(st);
    RunOneMore(st, [], step);
    assert [] + [step] == [step];
  }

  lemma {:induction false} RunAppend(st: State, a: seq<Step>, b: seq<Step>)
    requires Inv(st)
    ensures Run(st, a + b) == Run(Run(st, a), b)
  {
    hide Inv, Next;
    if b == [] {
      assert a + b == a;
    } else {
      assert (a + b)[..|a + b| - 1] == a + b[..|b| - 1];
      RunAppend(st, a, b[..|b| - 1]);
    }
  }

  // ------------------------------------------------------------ main results

  /** In every interleaving, what was sent on a channel is what the collector has
      received from it followed by what is still queued, in order. */
  lemma {:induction false} NothingIsLost(channels: nat, steps: seq<Step>, c: nat)
    requires c < channels
    ensures Inv(Init(channels))
    ensures var st := Run(Init(channels), steps);
            |st.sent| == |st.queued| == channels && st.sent[c] == From(st.got, c) + st.queued[c]
  {
    InitHolds(channels);
    ChannelsStay(channels, steps);
    assert Kept(Run(Init(channels), steps), c);
  }

  lemma {:induction false} StepKeepsChannels(st: State, step: Step)
    requires Inv(st)
    ensures |st.sent| == |st.queued| && |Next(st, step).queued| == |st.queued|
  {
  }

  lemma {:induction false} ChannelsStay(channels: nat, steps: seq<Step>)
    ensures Inv(Init(channels)) && |Run(Init(channels), steps).queued| == channels
  {
    InitHolds(channels);
    hide Inv, Next;
    if steps != [] {
      ChannelsStay(channels, steps[..|steps| - 1]);
      StepKeepsChannels(Run(Init(channels), steps[..|steps| - 1]), steps[|steps| - 1]);
    }
  }

  /** How a published map relates to what the workers sent: each channel contributes
      a prefix of its records that reaches past the flag, and the map groups exactly
      those receptions by slot. */
  ghost predicate PublishedFaithfully(st: State) {
    && st.published == Some(Grouped(st.got))
    && |st.cut| == |st.sent|
    && forall c | 0 <= c < |st.sent| ::
         var k := |From(st.got, c)|; st.cut[c] <= k <= |st.sent[c]| && From(st.got, c) == st.sent[c][..k]
  }

  lemma {:induction false} PublicationIsFaithful(channels: nat, steps: seq<Step>)
    ensures Inv(Init(channels))
    ensures var st := Run(Init(channels), steps); st.published.Some? ==> PublishedFaithfully(st)
  {
    InitHolds(channels);
    var st := Run(Init(channels), steps);
    if st.published.Some? {
      forall c | 0 <= c < |st.sent|
        ensures st.cut[c] <= |From(st.got, c)| <= |st.sent[c]|
        ensures From(st.got, c) == st.sent[c][..|From(st.got, c)|]
      {
        assert Kept(st, c) && PastTheCut(st, c);
      }
    }
  }

  /** Each slot's list is that slot's receptions in order, and no list is empty. */
  lemma {:induction false} GroupedBySlot(got: seq<Tagged>, s: nat)
    ensures s in Grouped(got) <==> OfSlot(got, s) != []
    ensures s in Grouped(got) ==> Grouped(got)[s] == Records(OfSlot(got, s))
  {
    if got != [] {
      var before, last := got[..|got| - 1], got[|got| - 1];
      GroupedBySlot(before, s);
      if last.record.slot == s {
        OneMore(OfSlot(before, s), last, last.channel, s);
      }
    }
  }

  /** A received record is in its own slot's list as often as it was received, and in
      no other list. */
  lemma {:induction false} ExactlyOnceUnderItsSlot(got: seq<Tagged>, r: Record, s: nat)
    ensures multiset(if s in Grouped(got) then Grouped(got)[s] else [])[r] == if r.slot == s
            then multiset(Records(got))[r] else 0
  {
    if got != [] {
      var before, last := got[..|got| - 1], got[|got| - 1];
      ExactlyOnceUnderItsSlot(before, r, s);
      assert Records(got) == Records(before) + [last.record];
    }
  }

  /** Within a slot's list, the records of one worker's channel are that channel's
      records of the slot, in the order they were sent. */
  lemma {:induction false} WorkerOrderIsKept(got: seq<Tagged>, s: nat, c: nat)
    ensures From(OfSlot(got, s), c) == SlotOnly(From(got, c), s)
  {
    if got != [] {
      var before, last := got[..|got| - 1], got[|got| - 1];
      WorkerOrderIsKept(before, s, c);
      if last.record.slot == s {
        OneMore(OfSlot(before, s), last, c, s);
      }
      if last.channel == c {
        SlotOnlyOneMore(From(before, c), last.record, s);
      }
    }
  }

  function SlotOnly(rs: seq<Record>, s: nat): seq<Record> {
    if rs == [] then []
    else
      var before, last := SlotOnly(rs[..|rs| - 1], s), rs[|rs| - 1];
      if last.slot == s then before + [last] else before
  }

  lemma {:induction false} SlotOnlyOneMore(rs: seq<Record>, r: Record, s: nat)
    ensures SlotOnly(rs + [r], s) == if r.slot == s then SlotOnly(rs, s) + [r] else SlotOnly(rs, s)
  {
    assert (rs + [r])[..|rs + [r]| - 1] == rs;
  }

  /** The published map, slot by slot: the slot's receptions in order, of which each
      worker contributed the slot's records among a prefix of what it sent, reaching
      past everything it sent before the flag was set. */
  lemma {:induction false} PublishedMapIsExact(channels: nat, steps: seq<Step>, s: nat, c: nat)
    requires c < channels
    ensures Inv(Init(channels))
    ensures var st := Run(Init(channels), steps);
            st.published.Some? ==>
              var listed := OfSlot(st.got, s);
              var k := |From(st.got, c)|;
              && (s in st.published.value <==> listed != [])
              && (s in st.published.value ==> st.published.value[s] == Records(listed))
              && |st.cut| == |st.sent| == channels && st.cut[c] <= k <= |st.sent[c]|
              && From(listed, c) == SlotOnly(st.sent[c][..k], s)
  {
    PublicationIsFaithful(channels, steps);
    ChannelsStay(channels, steps);
    NothingIsLost(channels, steps, c);
    var st := Run(Init(channels), steps);
    GroupedBySlot(st.got, s);
    WorkerOrderIsKept(st.got, s, c);
    hide From, OfSlot, Records, Grouped, SlotOnly, Run, Inv, Init;
  }

  // ------------------------------------------------------------- termination

  function TotalQueued(queued: seq<seq<Record>>): nat {
    if queued == [] then 0 else TotalQueued(queued[..|queued| - 1]) + |queued[|queued| - 1]|
  }

  /** Bound on the collector's remaining operations once the flag is set. */
  function Remaining(st: State): nat {
    var n := |st.queued|;
    TotalQueued(st.queued) +
    match st.collector
    case Finished => 0
    case AtCheck => n + 2
    case Draining(rx, last) => (if rx <= n then n - rx else 0) + if last then 1 else n + 4
  }

  lemma {:induction false} PopShrinks(queued: seq<seq<Record>>, c: nat)
    requires c < |queued| && queued[c] != []
    ensures TotalQueued(queued[c := queued[c][1..]]) == TotalQueued(queued) - 1
  {
    var after := queued[c := queued[c][1..]];
    var n := |queued| - 1;
    if c == n {
      assert after[..n] == queued[..n];
    } else {
      PopShrinks(queued[..n], c);
      assert after[..n] == queued[..n][c := queued[c][1..]];
    }
  }

  lemma {:induction false} CollectAdvances(st: State)
    requires Inv(st) && st.shutdown && !st.collector.Finished?
    ensures |st.sent| == |st.queued|
    ensures Remaining(Next(st, Collect)) < Remaining(st)
  {
    hide From, Grouped, CaughtUp;
    if st.collector.Draining? && st.collector.rx < |st.queued| && st.queued[st.collector.rx] != [] {
      PopShrinks(st.queued, st.collector.rx);
    }
  }

  function Collects(k: nat): seq<Step> {
    seq(k, i => Collect)
  }

  /** Once the flag is set and the senders are quiet, the collector publishes after a
      bounded number of its own steps. */
  lemma {:induction false} ShutdownPublishes(st: State, k: nat)
    requires Inv(st) && st.shutdown && k >= Remaining(st)
    ensures Run(st, Collects(k)).published.Some?
    decreases k
  {
    hide From, Grouped, Conserved, CaughtUp, Run;
    if st.collector.Finished? {
      FinishedStays(st, k);
    } else {
      CollectAdvances(st);
      OneStep(st, Collect);
      ShutdownPublishes(Next(st, Collect), k - 1);
      assert Collects(k) == [Collect] + Collects(k - 1);
      RunAppend(st, [Collect], Collects(k - 1));
    }
  }

  lemma {:induction false} FinishedStays(st: State, k: nat)
    requires Inv(st) && st.collector.Finished?
    ensures Run(st, Collects(k)) == st
  {
    if k > 0 {
      FinishedStays(st, k - 1);
      assert Collects(k)[..k - 1] == Collects(k - 1);
    }
  }

  // -------------------------------------------------------------- the threads

  /** What senders and the shutting-down thread do between two collector steps. */
  predicate Outside(batch: seq<Step>) {
    forall i | 0 <= i < |batch| :: !batch[i].Collect?
  }

  /** Per look at the flag: what happens before it, and between the tries of its pass. */
  type Rounds = seq<(seq<Step>, seq<seq<Step>>)>

  predicate OutsideRounds(rounds: Rounds) {
    forall k | 0 <= k < |rounds| ::
      Outside(rounds[k].0) && forall i | 0 <= i < |rounds[k].1| :: Outside(rounds[k].1[i])
  }

  lemma {:induction false} OutsideStep(st: State, step: Step)
    requires Inv(st) && !step.Collect?
    ensures |st.sent| == |st.queued|
    ensures var next := Next(st, step);
            && Inv(next) && next.collector == st.collector && next.got == st.got && next.bySlot == st.bySlot
            && next.published == st.published && |next.queued| == |st.queued|
            && match step
               case Send(c, r) =>
                 && next.shutdown == st.shutdown
                 && next.queued ==
                    if c < |st.queued| && !st.collector.Finished?
                    then st.queued[c := st.queued[c] + [r]] else st.queued
               case SetFlag => next.shutdown && next.queued == st.queued
  {
    OneStep(st, step);
    hide Inv;
  }

  /** What one try on the current channel does. */
  lemma {:induction false} TryStep(st: State)
    requires Inv(st) && st.collector.Draining? && st.collector.rx < |st.queued|
    ensures |st.sent| == |st.queued|
    ensures var next := Next(st, Collect);
            var rx := st.collector.rx;
            && Inv(next) && |next.queued| == |st.queued| && next.shutdown == st.shutdown &&
                 next.published == st.published
            && if st.queued[rx] == []
               then next.collector == Draining(rx + 1, st.collector.last) && next.queued == st.queued
                    && next.bySlot == st.bySlot && next.got == st.got
               else next.collector == st.collector && next.queued == st.queued[rx := st.queued[rx][1..]]
                    && next.bySlot == Push(st.bySlot, st.queued[rx][0]) && |next.got| == |st.got| + 1
  {
    CollectKeeps(st);
    hide Inv, Push;
  }

  /** Starting a pass, ending one, and publishing leave the data alone. */
  lemma {:induction false} TurnStep(st: State)
    requires Inv(st) && (st.collector.AtCheck? || (st.collector.Draining? && st.collector.rx == |st.queued|))
    ensures |st.sent| == |st.queued|
    ensures var next := Next(st, Collect);
            && Inv(next) && next.queued == st.queued && next.bySlot == st.bySlot && next.got == st.got &&
                 next.shutdown == st.shutdown
            && if st.collector.AtCheck? then next.collector == Draining(0, st.shutdown) &&
                 next.published == st.published
               else if st.collector.last then next.collector.Finished? && next.published == Some(st.bySlot)
               else next.collector.AtCheck? && next.published == st.published
  {
    CollectKeeps(st);
    hide Inv;
  }

  lemma {:induction false} NothingPublishedYet(st: State)
    requires Inv(st) && !st.collector.Finished?
    ensures st.published == None && (st.collector.Draining? ==> st.collector.rx <= |st.queued|)
  {
  }

  /** The one process-wide place where every recorder publishes. */
  class FinalRecords {
    var content: Option<SlotMap>

    ghost predicate Valid()
      reads this
    {
      content.Some? ==> exists got :: content.value == Grouped(got)
    }

    constructor ()
      ensures Valid() && content == None
    {
      content := None;
    }
  }

  /** A recorder's own data, with the machine state it stands for. */
  class AsyncRecorder {
    const finalRecords: FinalRecords
    var queues: seq<seq<Record>>
    var slotRecords: SlotMap
    var shutdownFlag: bool
    var receiversAlive: bool
    ghost var st: State

    ghost predicate Valid()
      reads this
    {
      && Inv(st)
      && queues == st.queued && slotRecords == st.bySlot && shutdownFlag == st.shutdown
      && receiversAlive == !st.collector.Finished?
    }

    constructor (numWorkers: nat, shared: FinalRecords)
      ensures Valid() && st == Init(numWorkers) && finalRecords == shared
    {
      InitHolds(numWorkers);
      finalRecords := shared;
      queues := seq(numWorkers, c => []);
      slotRecords, shutdownFlag, receiversAlive := map[], false, true;
      st := Init(numWorkers);
    }

    /** Senders push and the flag is set while the collector is between operations. */
    method Interfere(batch: seq<Step>)
      requires Valid() && Outside(batch)
      modifies this`queues, this`shutdownFlag, this`st
      ensures Valid() && st == Run(old(st), batch)
      ensures st.collector == old(st.collector) && st.got == old(st.got) && |st.queued| == |old(st.queued)|
    {
      hide Inv, Next, Run;
      ghost var start := st;
      RunNothing(start);
      assert batch[..0] == [];
      for i := 0 to |batch|
        invariant Valid() && st == Run(start, batch[..i])
        invariant st.collector == start.collector && st.got == start.got && |st.queued| == |start.queued|
      {
        assert batch[..i + 1] == batch[..i] + [batch[i]];
        RunOneMore(start, batch[..i], batch[i]);
        OutsideStep(st, batch[i]);
        match batch[i] {
          case Send(c, r) =>
            if c < |queues| && receiversAlive {
              queues := queues[c := queues[c] + [r]];
            }
          case SetFlag =>
            shutdownFlag := true;
          case Collect =>
        }
        st := Next(st, batch[i]);
      }
      assert batch[..|batch|] == batch;
    }

    /** One pass over the channels; each is drained until a try finds it empty, and
        before every try the next batch of outside steps happens. */
    method CollectAllRecords(outside: seq<seq<Step>>) returns (collected: nat, ghost trace: seq<Step>)
      requires Valid() && st.collector.Draining? && st.collector.rx == 0
      requires forall i | 0 <= i < |outside| :: Outside(outside[i])
      modifies this
      ensures Valid() && st == Run(old(st), trace)
      ensures st.collector == Draining(|queues|, old(st.collector.last))
      ensures |st.got| == |old(st.got)| + collected
    {
      hide Inv, Next, Run, Outside, Push;
      ghost var start := st;
      ghost var lastPass := st.collector.last;
      RunNothing(start);
      collected, trace := 0, [];
      var round := 0;
      var n := |queues|;
      for rx := 0 to n
        invariant Valid() && st == Run(start, trace) && |queues| == n && round <= |outside|
        invariant st.collector == Draining(rx, lastPass) && |st.got| == |start.got| + collected
      {
        while true
          invariant Valid() && st == Run(start, trace) && |queues| == n && round <= |outside|
          invariant st.collector == Draining(rx, lastPass) && |st.got| == |start.got| + collected
            decreases |outside| - round, |queues[rx]|
        {
          if round < |outside| {
            RunAppend(start, trace, outside[round]);
            Interfere(outside[round]);
            trace := trace + outside[round];
            round := round + 1;
          }
          RunOneMore(start, trace, Collect);
          TryStep(st);
          NothingPublishedYet(st);
          trace := trace + [Collect];
          st := Next(st, Collect);
          if queues[rx] == [] {
            break;
          }
          var record := queues[rx][0];
          queues := queues[rx := queues[rx][1..]];
          slotRecords := Push(slotRecords, record);
          collected := collected + 1;
        }
      }
    }

    /** The collector thread: passes until the flag is seen, one last pass, publication.
        `rounds[k]` is what happens outside before the k-th look at the flag and during
        the pass after it; when they run out the flag gets set. */
    method CollectorLoop(rounds: Rounds) returns (ghost trace: seq<Step>)
      requires Valid() && st.collector.AtCheck? && OutsideRounds(rounds)
      modifies this, finalRecords
      ensures Valid() && st == Run(old(st), trace) && st.collector.Finished?
      ensures finalRecords.Valid() && finalRecords.content == st.published == Some(Grouped(st.got))
    {
      hide Inv, Next, Run, Outside;
      ghost var start := st;
      RunNothing(start);
      trace := [];
      var k := 0;
      var last := false;
      while !last
        invariant Valid() && st == Run(start, trace) && k <= |rounds|
        invariant if last then st.collector == Draining(|queues|, true) else st.collector.AtCheck?
        decreases !last, |rounds| - k
      {
        var outside: seq<seq<Step>> := [];
        if k < |rounds| {
          RunAppend(start, trace, rounds[k].0);
          Interfere(rounds[k].0);
          trace := trace + rounds[k].0;
          outside := rounds[k].1;
          k := k + 1;
        } else {
          RunAppend(start, trace, [SetFlag]);
          OnlyTheFlag();
          Interfere([SetFlag]);
          trace := trace + [SetFlag];
          assert st.shutdown by { FlagIsSet(Run(start, trace[..|trace| - 1])); }
        }
        last := shutdownFlag;
        RunOneMore(start, trace, Collect);
        TurnStep(st);
        NothingPublishedYet(st);
        st, trace := Next(st, Collect), trace + [Collect];
        ghost var mid := trace;
        var collected, pass := CollectAllRecords(outside);
        RunAppend(start, mid, pass);
        trace := mid + pass;
        if !last {
          RunOneMore(start, trace, Collect);
          TurnStep(st);
          NothingPublishedYet(st);
          st, trace := Next(st, Collect), trace + [Collect];
        }
      }
      RunOneMore(start, trace, Collect);
      TurnStep(st);
      finalRecords.content := Some(slotRecords);
      receiversAlive := false;
      FinishedHolds(Next(st, Collect));
      st, trace := Next(st, Collect), trace + [Collect];
    }

    /** Takes the published map, if there is one, and writes all its records. */
    method WriteToCsv() returns (rows: seq<Record>)
      requires Valid() && finalRecords.Valid()
      modifies this, finalRecords
      ensures Valid() && finalRecords.Valid() && finalRecords.content == None && shutdownFlag
      ensures st == Next(old(st), SetFlag)
      ensures st.collector == old(st.collector) && st.got == old(st.got) && st.published == old(st.published)
      ensures old(finalRecords.content) == None ==> rows == []
      ensures forall got | old(finalRecords.content) == Some(Grouped(got)) :: multiset(rows) == multiset(Records(got))
    {
      OneStep(st, SetFlag);
      shutdownFlag := true;
      st := Next(st, SetFlag);
      var records := finalRecords.content;
      finalRecords.content := None;
      rows := [];
      if records.Some? {
        ghost var some :| records.value == Grouped(some);
        AllInTheirSlots(some);
        rows := WriteRows(records.value);
        forall got | records == Some(Grouped(got)) ensures multiset(rows) == multiset(Records(got)) {
          RowsAreReceptions(got, rows);
        }
      }
    }
  }

  // ------------------------------------------------------ recorders that share the place

  /** What recorders do to the shared place: one publishes, one takes and writes. */
  datatype PlaceOp = Publication(recorder: nat) | Export(recorder: nat)

  /** Whose records the place holds after some operations. */
  function Holder(ops: seq<PlaceOp>): Option<nat> {
    if ops == [] then None
    else
      var last := ops[|ops| - 1];
      if last.Publication? then Some(last.recorder) else None
  }

  /** A schedule for n recorders; a collector thread publishes once and ends. */
  predicate Schedule(ops: seq<PlaceOp>, n: nat) {
    && (forall k | 0 <= k < |ops| :: ops[k].recorder < n)
    && (forall j, k | 0 <= j < k < |ops| && ops[j].Publication? && ops[k].Publication? ::
          ops[j].recorder != ops[k].recorder)
  }

  /** What operation k writes, when recorder i has received got[i]. */
  ghost predicate Written(ops: seq<PlaceOp>, got: seq<seq<Tagged>>, k: nat, rows: seq<Record>)
    requires k < |ops| && Schedule(ops, |got|)
  {
    if ops[k].Publication? || Holder(ops[..k]).None? then rows == []
    else multiset(rows) == multiset(Records(got[Holder(ops[..k]).value]))
  }

  /** A recorder's export can be told from an empty one and from those of the others. */
  ghost predicate Distinguishable(got: seq<seq<Tagged>>, i: nat)
    requires i < |got|
  {
    Records(got[i]) != [] &&
    forall j | 0 <= j < |got| && j != i :: multiset(Records(got[j])) != multiset(Records(got[i]))
  }

  /** A recorder exports its own receptions if the last operation on the place was its own
      publication, and (where that can be told) only then. */
  lemma {:induction false} ExportsOwnExactly(ops: seq<PlaceOp>, got: seq<seq<Tagged>>, k: nat, rows: seq<Record>)
    requires k < |ops| && Schedule(ops, |got|) && ops[k].Export? && Written(ops, got, k, rows)
    ensures var i := ops[k].recorder;
            var own := k > 0 && ops[k - 1] == Publication(i);
            && (own ==> multiset(rows) == multiset(Records(got[i])))
            && (Distinguishable(got, i) ==> (own <==> multiset(rows) == multiset(Records(got[i]))))
  {
    var i := ops[k].recorder;
    if k > 0 {
      assert ops[..k][k - 1] == ops[k - 1];
    }
    if rows == [] && Records(got[i]) != [] {
      assert Records(got[i])[0] in multiset(Records(got[i]));
    }
  }

  ghost predicate Reached(start: State, st: State) {
    Inv(start) && exists trace :: Run(start, trace) == st
  }

  lemma {:induction false} ReachedOn(start: State, mid: State, trace: seq<Step>)
    requires Inv(mid) && Reached(start, mid)
    ensures Reached(start, Run(mid, trace))
  {
    hide Inv, Run;
    var before :| Run(start, before) == mid;
    RunAppend(start, before, trace);
  }

  /** A recorder before and after its publication. */
  ghost predicate AsPublished(r: AsyncRecorder, start: State, published: bool, got: seq<Tagged>)
    reads r
  {
    && r.Valid() && Reached(start, r.st)
    && if published then r.st.got == got && r.st.published == Some(Grouped(got)) else r.st.collector.AtCheck?
  }

  /** The place and the recorders when the operations `done` are over. */
  ghost predicate InTurn(shared: FinalRecords, recorders: seq<AsyncRecorder>, starts: seq<State>,
                         done: seq<PlaceOp>, got: seq<seq<Tagged>>)
    requires Schedule(done, |recorders|) && |got| == |recorders| == |starts|
    reads shared, recorders
  {
    && shared.Valid()
    && shared.content == (match Holder(done) case None => None case Some(j) => Some(Grouped(got[j])))
    && forall i | 0 <= i < |recorders| :: AsPublished(recorders[i], starts[i], Publication(i) in done, got[i])
  }

  predicate Different(recorders: seq<AsyncRecorder>) {
    forall i, j | 0 <= i < j < |recorders| :: recorders[i] != recorders[j]
  }

  method PublishOne(shared: FinalRecords, recorders: seq<AsyncRecorder>, i: nat, rounds: Rounds,
          ghost starts: seq<State>, ghost done: seq<PlaceOp>, ghost got: seq<seq<Tagged>>)
    requires Schedule(done, |recorders|) && |got| == |recorders| == |starts| && Different(recorders)
    requires InTurn(shared, recorders, starts, done, got) && i < |recorders| && Publication(i) !in done
    requires recorders[i].finalRecords == shared && OutsideRounds(rounds)
    modifies shared, recorders[i]
    ensures Schedule(done + [Publication(i)], |recorders|)
    ensures InTurn(shared, recorders, starts, done + [Publication(i)], got[i := recorders[i].st.got])
  {
    hide Run, Next, Inv, Outside, OutsideRounds, Grouped, AsyncRecorder.Valid, FinalRecords.Valid;
    assert AsPublished(recorders[i], starts[i], false, got[i]);
    ghost var before := recorders[i].st;
    ghost var trace := recorders[i].CollectorLoop(rounds);
    ReachedOn(starts[i], before, trace);
    forall j | 0 <= j < |recorders| && j != i
      ensures AsPublished(recorders[j], starts[j], Publication(j) in done + [Publication(i)], got[j])
    {
      assert recorders[j] != recorders[i];
    }
  }

  method ExportOne(shared: FinalRecords, recorders: seq<AsyncRecorder>, i: nat, ghost starts: seq<State>,
          ghost done: seq<PlaceOp>, ghost got: seq<seq<Tagged>>)
      returns (rows: seq<Record>)
    requires Schedule(done, |recorders|) && |got| == |recorders| == |starts| && Different(recorders)
    requires InTurn(shared, recorders, starts, done, got) && i < |recorders| && recorders[i].finalRecords == shared
    modifies shared, recorders[i]
    ensures Schedule(done + [Export(i)], |recorders|)
    ensures InTurn(shared, recorders, starts, done + [Export(i)], got)
    ensures match Holder(done)
            case None => rows == []
            case Some(j) => multiset(rows) == multiset(Records(got[j]))
  {
    hide Run, Next, Inv, Outside, Grouped, Records, AsyncRecorder.Valid, FinalRecords.Valid;
    assert AsPublished(recorders[i], starts[i], Publication(i) in done, got[i]);
    ghost var before := recorders[i].st;
    ReachedOn(starts[i], before, [SetFlag]);
    OneStep(before, SetFlag);
    rows := recorders[i].WriteToCsv();
    forall j | 0 <= j < |recorders| && j != i
      ensures AsPublished(recorders[j], starts[j], Publication(j) in done + [Export(i)], got[j])
    {
      assert recorders[j] != recorders[i];
    }
  }

  /** What was written before a recorder publishes has nothing to do with its receptions. */
  lemma {:induction false} WrittenStays(ops: seq<PlaceOp>, got: seq<seq<Tagged>>, k: nat, more: seq<Tagged>,
          csv: seq<seq<Record>>)
    requires k < |ops| && Schedule(ops, |got|) && ops[k].Publication? && |csv| == k
    requires forall j | 0 <= j < k :: Written(ops, got, j, csv[j])
    ensures forall j | 0 <= j < k :: Written(ops, got[ops[k].recorder := more], j, csv[j])
  {
    hide Records;
    var i := ops[k].recorder;
    forall j | 0 <= j < k ensures Written(ops, got[i := more], j, csv[j]) {
      assert Written(ops, got, j, csv[j]);
      assert j > 0 ==> ops[..j][j - 1] == ops[j - 1];
    }
  }

  /** Any number of recorders publish and export through the one place, in any order. */
  method ShareThePlace(shared: FinalRecords, recorders: seq<AsyncRecorder>, ghost starts: seq<State>,
          rounds: seq<Rounds>, ops: seq<PlaceOp>)
      returns (csv: seq<seq<Record>>, ghost got: seq<seq<Tagged>>)
    requires shared.Valid() && shared.content == None && Different(recorders)
    requires |rounds| == |recorders| == |starts| && Schedule(ops, |recorders|)
    requires forall i | 0 <= i < |recorders| ::
               && recorders[i].Valid() && recorders[i].st == starts[i] && starts[i].collector.AtCheck?
               && recorders[i].finalRecords == shared && OutsideRounds(rounds[i])
    modifies shared, recorders
    ensures |csv| == |ops| && |got| == |recorders|
    ensures forall k | 0 <= k < |ops| :: Written(ops, got, k, csv[k])
    ensures InTurn(shared, recorders, starts, ops, got)
  {
    hide Run, Next, Inv, Outside, OutsideRounds, Grouped, Records, AsyncRecorder.Valid, FinalRecords.Valid, InTurn;
    csv := [];
    got := seq(|recorders|, i => []);
    NothingDone(shared, recorders, starts, got);
    for k := 0 to |ops|
      invariant |csv| == k && |got| == |recorders| && InTurn(shared, recorders, starts, ops[..k], got)
      invariant forall j | 0 <= j < k :: Written(ops, got, j, csv[j])
    {
      var i := ops[k].recorder;
      assert ops[..k + 1] == ops[..k] + [ops[k]];
      match ops[k] {
        case Publication(_) =>
          PublishOne(shared, recorders, i, rounds[i], starts, ops[..k], got);
          WrittenStays(ops, got, k, recorders[i].st.got, csv);
          got := got[i := recorders[i].st.got];
          csv := csv + [[]];
        case Export(_) =>
          var rows := ExportOne(shared, recorders, i, starts, ops[..k], got);
          csv := csv + [rows];
      }
    }
    assert ops[..|ops|] == ops;
  }

  lemma {:induction false} NothingDone(shared: FinalRecords, recorders: seq<AsyncRecorder>, starts: seq<State>,
          got: seq<seq<Tagged>>)
    requires shared.Valid() && shared.content == None && |got| == |recorders| == |starts|
    requires forall i | 0 <= i < |recorders| ::
               recorders[i].Valid() && recorders[i].st == starts[i] && starts[i].collector.AtCheck?
    ensures InTurn(shared, recorders, starts, [], got)
  {
    forall i | 0 <= i < |recorders| ensures Inv(starts[i]) && Run(starts[i], []) == starts[i] {
      assert recorders[i].Valid();
      RunNothing(starts[i]);
    }
    hide Grouped, Run, Inv, AsyncRecorder.Valid, FinalRecords.Valid;
  }

  /** Two recorders that publish before either exports: the first one writes the second
      one's records, and the second one writes none. */
  method TwoRecorders(a: nat, roundsA: Rounds, b: nat, roundsB: Rounds)
      returns (rowsA: seq<Record>, rowsB: seq<Record>, ghost gotA: seq<Tagged>, ghost gotB: seq<Tagged>)
    requires OutsideRounds(roundsA) && OutsideRounds(roundsB)
    ensures exists st :: Reached(Init(a), st) && gotA == st.got && st.published == Some(Grouped(gotA))
    ensures exists st :: Reached(Init(b), st) && gotB == st.got && st.published == Some(Grouped(gotB))
    ensures multiset(rowsA) == multiset(Records(gotB)) && rowsB == []
  {
    hide Run, Next, Inv, Outside, OutsideRounds, Grouped, Records, Reached, AsyncRecorder.Valid, FinalRecords.Valid;
    StartsAtCheck(a);
    StartsAtCheck(b);
    var shared := new FinalRecords();
    var first := new AsyncRecorder(a, shared);
    var second := new AsyncRecorder(b, shared);
    var ops := [Publication(0), Publication(1), Export(0), Export(1)];
    ghost var starts := [Init(a), Init(b)];
    var csv, got := ShareThePlace(shared, [first, second], starts, [roundsA, roundsB], ops);
    rowsA, rowsB, gotA, gotB := csv[2], csv[3], got[0], got[1];
    assert ops[0] == Publication(0) && AsPublished([first, second][0], starts[0], true, got[0]);
    assert ops[1] == Publication(1) && AsPublished([first, second][1], starts[1], true, got[1]);
    assert Reached(Init(a), first.st) && Reached(Init(b), second.st);
    assert Written(ops, got, 2, csv[2]) && Written(ops, got, 3, csv[3]);
  }

  lemma {:induction false} StartsAtCheck(n: nat)
    ensures Init(n).collector.AtCheck?
  {
  }

  lemma {:induction false} FinishedHolds(st: State)
    requires Inv(st)
    ensures st.bySlot == Grouped(st.got) && (st.published.Some? ==> st.published == Some(Grouped(st.got)))
  {
    hide Grouped;
  }

  lemma {:induction false} OnlyTheFlag()
    ensures Outside([SetFlag])
  {
  }

  lemma {:induction false} FlagIsSet(st: State)
    requires Inv(st)
    ensures Run(st, [SetFlag]).shutdown
  {
    OneStep(st, SetFlag);
  }

  predicate InTheirSlots(m: SlotMap) {
    forall s <- m :: forall r <- m[s] :: r.slot == s
  }

  lemma {:induction false} AllInTheirSlots(got: seq<Tagged>)
    ensures InTheirSlots(Grouped(got))
  {
    if got != [] {
      AllInTheirSlots(got[..|got| - 1]);
    }
  }

  function CountIn(m: SlotMap, r: Record): nat {
    if r.slot in m then multiset(m[r.slot])[r] else 0
  }

  /** The slots in some order, each slot's records in list order. */
  method WriteRows(m: SlotMap) returns (rows: seq<Record>)
    requires InTheirSlots(m)
    ensures forall r: Record :: multiset(rows)[r] == CountIn(m, r)
  {
    rows := [];
    var keys := m.Keys;
    while keys != {}
      invariant keys <= m.Keys
      invariant forall r: Record :: multiset(rows)[r] == if r.slot in keys then 0 else CountIn(m, r)
    {
      var s :| s in keys;
      var list := m[s];
      ghost var before := rows;
      for i := 0 to |list|
        invariant rows == before + list[..i]
      {
        rows := rows + [list[i]];
      }
      assert list[..|list|] == list;
      forall r: Record ensures multiset(rows)[r] == if r.slot in keys - {s} then 0 else CountIn(m, r) {
        assert multiset(rows)[r] == multiset(before)[r] + multiset(list)[r];
        if r.slot != s {
          assert r !in list;
        }
      }
      keys := keys - {s};
    }
  }

  lemma {:induction false} RowsAreReceptions(got: seq<Tagged>, rows: seq<Record>)
    requires forall r: Record :: multiset(rows)[r] == CountIn(Grouped(got), r)
    ensures multiset(rows) == multiset(Records(got))
  {
    forall r: Record ensures multiset(rows)[r] == multiset(Records(got))[r] {
      ExactlyOnceUnderItsSlot(got, r, r.slot);
    }
  }
}
