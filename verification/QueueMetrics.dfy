/**
 * The queue accounting of the ZeroMQ data plane (`ZmqDataPlaneMetrics`, `try_enqueue`,
 * the start of the actor's loop) under every interleaving of its atomic operations.
 * A producer records a request, tries to send it and rolls back when it is refused; the
 * actor records what it takes. All of them share the counters without a common lock.
 */
module QueueMetrics {
  import opened Wrappers

  // ---- the counters and the atomic operations on them ----------------------------------------

  datatype Metrics = Metrics(
    queuedAt: seq<int>,
    depth: nat,
    sendDepth: nat,
    controlDepth: nat,
    maxDepth: nat,
    enqueuedTotal: nat,
    backpressureTotal: nat)

  const ZERO := Metrics([], 0, 0, 0, 0, 0, 0)

  /** `fetch_sub(1)`, which wraps. */
  function WrappingDec(n: nat): nat { if n == 0 then U64_MAX else n - 1 }

  /** `saturating_sub(1)`. */
  function SaturatingDec(n: nat): nat { if n == 0 then 0 else n - 1 }

  /** Removes the first entry equal to `t`, if there is one (`position`, then `remove`). */
  function DropFirst(queue: seq<int>, t: int): seq<int> {
    if queue == [] then [] else if queue[0] == t then queue[1..] else [queue[0]] + DropFirst(queue[1..], t)
  }

  function LaneDepth(m: Metrics, isSend: bool): nat { if isSend then m.sendDepth else m.controlDepth }

  function SetLaneDepth(m: Metrics, isSend: bool, n: nat): Metrics {
    if isSend then m.(sendDepth := n) else m.(controlDepth := n)
  }

  function AddStamp(m: Metrics, t: int): Metrics { m.(queuedAt := m.queuedAt + [t]) }

  function DropStamp(m: Metrics, t: int): Metrics { m.(queuedAt := DropFirst(m.queuedAt, t)) }

  function AddToLane(m: Metrics, isSend: bool): Metrics { SetLaneDepth(m, isSend, LaneDepth(m, isSend) + 1) }

  function RaiseMax(m: Metrics, depth: nat): Metrics { m.(maxDepth := Max(depth, m.maxDepth)) }

  // ---- the three recording functions, run without interference -----------------------------------

  function Enqueued(m: Metrics, t: int, isSend: bool): Metrics {
    var counted := AddStamp(m, t).(enqueuedTotal := m.enqueuedTotal + 1, depth := m.depth + 1);
    RaiseMax(AddToLane(counted, isSend), m.depth + 1)
  }

  function RolledBack(m: Metrics, t: int, isSend: bool): Metrics {
    var dropped := DropStamp(m, t).(depth := WrappingDec(m.depth), enqueuedTotal := WrappingDec(m.enqueuedTotal));
    SetLaneDepth(dropped, isSend, WrappingDec(LaneDepth(m, isSend)))
  }

  function Dequeued(m: Metrics, t: int, isSend: bool): Metrics {
    var dropped := DropStamp(m, t).(depth := SaturatingDec(m.depth));
    SetLaneDepth(dropped, isSend, SaturatingDec(LaneDepth(m, isSend)))
  }

  class ZmqDataPlaneMetrics {
    var queuedAt: seq<int>
    var queueDepth: nat
    var sendQueueDepth: nat
    var controlQueueDepth: nat
    var queueMaxDepth: nat
    var enqueuedTotal: nat
    var backpressureTotal: nat
    var lastBatchSize: nat
    var maxBatchSize: nat
    var lastQueueWaitMs: nat
    var maxQueueWaitMs: nat

    constructor ()
      ensures Value() == ZERO && lastBatchSize == maxBatchSize == lastQueueWaitMs == maxQueueWaitMs == 0
    {
      lastBatchSize, maxBatchSize, lastQueueWaitMs, maxQueueWaitMs := 0, 0, 0, 0;
      queuedAt, queueDepth, sendQueueDepth, controlQueueDepth := [], 0, 0, 0;
      queueMaxDepth, enqueuedTotal, backpressureTotal := 0, 0, 0;
    }

    ghost function Value(): Metrics
      reads this
    {
      Metrics(queuedAt, queueDepth, sendQueueDepth, controlQueueDepth, queueMaxDepth, enqueuedTotal, backpressureTotal)
    }

    method RecordEnqueued(batchSize: nat, t: int, isSend: bool)
      modifies `queuedAt, `queueDepth, `sendQueueDepth, `controlQueueDepth, `queueMaxDepth, `enqueuedTotal,
               `lastBatchSize, `maxBatchSize
      ensures Value() == Enqueued(old(Value()), t, isSend)
      ensures lastBatchSize == batchSize && maxBatchSize == Max(old(maxBatchSize), batchSize)
    {
      queuedAt := queuedAt + [t];
      enqueuedTotal := enqueuedTotal + 1;
      queueDepth := queueDepth + 1;
      var depth := queueDepth;
      if isSend {
        sendQueueDepth := sendQueueDepth + 1;
      } else {
        controlQueueDepth := controlQueueDepth + 1;
      }
      if depth > queueMaxDepth {
        queueMaxDepth := depth;
      }
      lastBatchSize := batchSize;
      if batchSize > maxBatchSize {
        maxBatchSize := batchSize;
      }
    }

    method RemoveStamp(t: int)
      modifies this`queuedAt
      ensures queuedAt == DropFirst(old(queuedAt), t)
    {
      var i := 0;
      while i < |queuedAt| && queuedAt[i] != t
        invariant 0 <= i <= |queuedAt|
        invariant queuedAt == old(queuedAt)
        invariant DropFirst(queuedAt, t) == queuedAt[..i] + DropFirst(queuedAt[i..], t)
      {
        Assoc(queuedAt[..i], [queuedAt[i]], DropFirst(queuedAt[i + 1..], t));
        assert queuedAt[..i + 1] == queuedAt[..i] + [queuedAt[i]];
        i := i + 1;
      }
      if i < |queuedAt| {
        queuedAt := queuedAt[..i] + queuedAt[i + 1..];
      }
    }

    method RollbackEnqueued(t: int, isSend: bool)
      modifies `queuedAt, `queueDepth, `sendQueueDepth, `controlQueueDepth, `enqueuedTotal
      ensures Value() == RolledBack(old(Value()), t, isSend)
    {
      RemoveStamp(t);
      queueDepth := if queueDepth == 0 then U64_MAX else queueDepth - 1;
      if isSend {
        sendQueueDepth := if sendQueueDepth == 0 then U64_MAX else sendQueueDepth - 1;
      } else {
        controlQueueDepth := if controlQueueDepth == 0 then U64_MAX else controlQueueDepth - 1;
      }
      enqueuedTotal := if enqueuedTotal == 0 then U64_MAX else enqueuedTotal - 1;
    }

    /** `waitMs` is how long ago `t` was, in whole milliseconds. */
    method RecordDequeued(t: int, isSend: bool, waitMs: nat)
      modifies `queuedAt, `queueDepth, `sendQueueDepth, `controlQueueDepth, `lastQueueWaitMs, `maxQueueWaitMs
      ensures Value() == Dequeued(old(Value()), t, isSend)
      ensures lastQueueWaitMs == waitMs && maxQueueWaitMs == Max(old(maxQueueWaitMs), waitMs)
    {
      RemoveStamp(t);
      if queueDepth > 0 {
        queueDepth := queueDepth - 1;
      }
      if isSend && sendQueueDepth > 0 {
        sendQueueDepth := sendQueueDepth - 1;
      }
      if !isSend && controlQueueDepth > 0 {
        controlQueueDepth := controlQueueDepth - 1;
      }
      lastQueueWaitMs := waitMs;
      if waitMs > maxQueueWaitMs {
        maxQueueWaitMs := waitMs;
      }
    }
  }

  // ---- requests on their way ----------------------------------------------------------------------

  datatype Refusal = Full | Disconnected

  /** The last atomic operation done for a request. */
  datatype Stage =
    // the producer, in `record_enqueued`
    | Stamped
    | Counted
    | Deepened(seen: nat)
    | Laned(seen: nat)
    | Recorded
    // after `try_send`
    | Queued
    | Refused(why: Refusal)
    // the producer, in `rollback_enqueued`
    | Unstamped(why: Refusal)
    | Shallower(why: Refusal)
    | Unlaned(why: Refusal)
    | Uncounted
    // the actor, in `record_dequeued`
    | Taken
    | TakenUnstamped
    | TakenShallower

  datatype Item = Item(stamp: int, isSend: bool, stage: Stage)

  /** What a request can contribute to. */
  datatype Mark =
    | Stamp(at: int)          // an entry of `queued_at`
    | Total                   // one in `enqueued_total`
    | Depth                   // one in `queue_depth`
    | InLane(isSend: bool)    // one in its lane's depth
    | Waiting(isSend: bool)   // a place in its lane's channel
    | Pushback                // one in `backpressure_total` still to come
    | Raise(depth: nat)       // a depth that `queue_max_depth` is about to be raised to

  predicate Holds(item: Item, mark: Mark) {
    var stage := item.stage;
    match mark
    case Stamp(at) =>
      item.stamp == at && !stage.Unstamped? && !stage.Shallower? && !stage.Unlaned? && !stage.Uncounted?
      && !stage.TakenUnstamped? && !stage.TakenShallower?
    case Total => !stage.Stamped? && !stage.Uncounted?
    case Depth =>
      !stage.Stamped? && !stage.Counted? && !stage.Shallower? && !stage.Unlaned? && !stage.Uncounted? && !stage.TakenShallower?
    case InLane(isSend) =>
      item.isSend == isSend
      && !stage.Stamped? && !stage.Counted? && !stage.Deepened? && !stage.Unlaned? && !stage.Uncounted?
    case Waiting(isSend) => item.isSend == isSend && stage.Queued?
    case Pushback =>
      stage.Uncounted? || ((stage.Refused? || stage.Unstamped? || stage.Shallower? || stage.Unlaned?) && stage.why == Full)
    case Raise(depth) => (stage.Deepened? || stage.Laned?) && stage.seen == depth
  }

  function One(item: Item, mark: Mark): nat { if Holds(item, mark) then 1 else 0 }

  function Count(items: seq<Item>, mark: Mark): nat {
    if items == [] then 0 else One(items[0], mark) + Count(items[1..], mark)
  }

  /** The counters, the requests on their way, and what an observer has counted. */
  datatype State = State(m: Metrics, items: seq<Item>, stopped: bool, dequeued: nat, fulls: nat, peak: nat)

  const INITIAL := State(ZERO, [], false, 0, 0, 0)

  function Capacity(isSend: bool): nat { if isSend then 20_000 else 1_024 }

  // ---- steps --------------------------------------------------------------------------------------

  /** A producer starts, the thread working on a request does its next operation, or the actor takes one or exits. */
  datatype Step = Begin(stamp: int, isSend: bool) | Advance(i: nat) | Receive(i: nat) | Exit

  predicate WithActor(stage: Stage) { stage.Taken? || stage.TakenUnstamped? || stage.TakenShallower? }

  predicate ActorIdle(s: State) { !s.stopped && forall item | item in s.items :: !WithActor(item.stage) }

  function To(s: State, i: nat, stage: Stage, m: Metrics): State
    requires i < |s.items|
  {
    s.(m := m, items := s.items[i := s.items[i].(stage := stage)])
  }

  function Done(s: State, i: nat, m: Metrics): State
    requires i < |s.items|
  {
    s.(m := m, items := Without(s.items, i))
  }

  function TrySend(s: State, i: nat): State
    requires i < |s.items|
  {
    var isSend := s.items[i].isSend;
    if s.stopped then To(s, i, Refused(Disconnected), s.m)
    else if Count(s.items, Waiting(isSend)) >= Capacity(isSend) then To(s, i, Refused(Full), s.m).(fulls := s.fulls + 1)
    else To(s, i, Queued, s.m)
  }

  /** The next operation of the thread that works on request `i`; one that waits in a channel has none. */
  function Advanced(s: State, i: nat): State
    requires i < |s.items|
  {
    var item, m := s.items[i], s.m;
    match item.stage
    case Stamped => To(s, i, Counted, m.(enqueuedTotal := m.enqueuedTotal + 1))
    case Counted => To(s, i, Deepened(m.depth + 1), m.(depth := m.depth + 1)).(peak := Max(s.peak, m.depth + 1))
    case Deepened(seen) => To(s, i, Laned(seen), AddToLane(m, item.isSend))
    case Laned(seen) => To(s, i, Recorded, RaiseMax(m, seen))
    case Recorded => TrySend(s, i)
    case Queued => s
    case Refused(why) => To(s, i, Unstamped(why), DropStamp(m, item.stamp))
    case Unstamped(why) => To(s, i, Shallower(why), m.(depth := WrappingDec(m.depth)))
    case Shallower(why) =>
      To(s, i, Unlaned(why), SetLaneDepth(m, item.isSend, WrappingDec(LaneDepth(m, item.isSend))))
    case Unlaned(why) =>
      var uncounted := m.(enqueuedTotal := WrappingDec(m.enqueuedTotal));
      if why == Full then To(s, i, Uncounted, uncounted) else Done(s, i, uncounted)
    case Uncounted => Done(s, i, m.(backpressureTotal := m.backpressureTotal + 1))
    case Taken => To(s, i, TakenUnstamped, DropStamp(m, item.stamp))
    case TakenUnstamped => To(s, i, TakenShallower, m.(depth := SaturatingDec(m.depth)))
    case TakenShallower =>
      Done(s, i, SetLaneDepth(m, item.isSend, SaturatingDec(LaneDepth(m, item.isSend)))).(dequeued := s.dequeued + 1)
  }

  function Next(s: State, step: Step): State {
    match step
    case Begin(stamp, isSend) => s.(m := AddStamp(s.m, stamp), items := s.items + [Item(stamp, isSend, Stamped)])
    case Advance(i) => if i < |s.items| then Advanced(s, i) else s
    case Receive(i) =>
      if i < |s.items| && s.items[i].stage.Queued? && ActorIdle(s) then To(s, i, Taken, s.m) else s
    case Exit => if ActorIdle(s) then s.(stopped := true) else s
  }

  function After(s: State, steps: seq<Step>): State
    decreases |steps|
  {
    if steps == [] then s else After(Next(s, steps[0]), steps[1..])
  }

  // ---- the invariant ----------------------------------------------------------------------------------

  /** Every counter is the number of requests that contribute to it. */
  ghost predicate Tallied(s: State) { StampsTallied(s) && CountersTallied(s) }

  ghost predicate StampsTallied(s: State) {
    forall t :: multiset(s.m.queuedAt)[t] == Count(s.items, Stamp(t))
  }

  ghost predicate CountersTallied(s: State) {
    && s.m.enqueuedTotal == s.dequeued + Count(s.items, Total)
    && s.m.depth == Count(s.items, Depth)
    && s.m.sendDepth == Count(s.items, InLane(true))
    && s.m.controlDepth == Count(s.items, InLane(false))
    && s.fulls == s.m.backpressureTotal + Count(s.items, Pushback)
    && (forall isSend :: Count(s.items, Waiting(isSend)) <= Capacity(isSend))
  }

  /** The recorded maximum is the highest depth there was, or a producer is about to raise it to that. */
  ghost predicate PeakKept(s: State) {
    && s.m.depth <= s.peak && s.m.maxDepth <= s.peak
    && (forall n: nat :: Count(s.items, Raise(n)) > 0 ==> n <= s.peak)
    && (s.m.maxDepth == s.peak || Count(s.items, Raise(s.peak)) > 0)
  }

  // ---- counting -----------------------------------------------------------------------------------------

  lemma {:induction false} CountJoins(a: seq<Item>, b: seq<Item>, mark: Mark)
    ensures Count(a + b, mark) == Count(a, mark) + Count(b, mark)
  {
    hide Holds, One;
    if a == [] {
      assert a + b == b;
    } else {
      assert (a + b)[1..] == a[1..] + b;
      CountJoins(a[1..], b, mark);
    }
  }

  lemma CountAround(items: seq<Item>, i: nat, mark: Mark)
    requires i < |items|
    ensures Count(items, mark) == Count(Without(items, i), mark) + One(items[i], mark)
  {
    hide Holds, One;
    assert items == items[..i] + ([items[i]] + items[i + 1..]);
    CountJoins(items[..i], [items[i]] + items[i + 1..], mark);
    CountJoins([items[i]], items[i + 1..], mark);
    CountJoins(items[..i], items[i + 1..], mark);
  }

  lemma CountChanged(items: seq<Item>, i: nat, item: Item, mark: Mark)
    requires i < |items|
    ensures Count(items[i := item], mark) + One(items[i], mark) == Count(items, mark) + One(item, mark)
  {
    hide Holds, One;
    CountAround(items, i, mark);
    CountAround(items[i := item], i, mark);
    assert Without(items[i := item], i) == Without(items, i);
  }

  lemma {:induction false} DropFirstDrops(queue: seq<int>, t: int)
    ensures multiset(DropFirst(queue, t)) == multiset(queue) - multiset{t}
  {
    if queue != [] {
      assert queue == [queue[0]] + queue[1..];
      if queue[0] != t {
        DropFirstDrops(queue[1..], t);
      }
    }
  }

  lemma DropFirstCounts(queue: seq<int>, t: int, u: int)
    requires t in queue
    ensures multiset(queue)[u] == multiset(DropFirst(queue, t))[u] + if u == t then 1 else 0
  {
    DropFirstDrops(queue, t);
    assert multiset(queue)[t] > 0;
  }

  /** A subtraction always has something to take away: nothing wraps and nothing saturates. */
  lemma SubtractionsAreExact(s: State, i: nat)
    requires Tallied(s) && i < |s.items|
    ensures var item := s.items[i];
            && (item.stage.Refused? || item.stage.Taken? ==> item.stamp in s.m.queuedAt)
            && (item.stage.Unstamped? || item.stage.TakenUnstamped? ==> s.m.depth > 0)
            && (item.stage.Shallower? || item.stage.TakenShallower? ==> LaneDepth(s.m, item.isSend) > 0)
            && (item.stage.Unlaned? ==> s.m.enqueuedTotal > 0)
  {
    var item := s.items[i];
    CountAround(s.items, i, Stamp(item.stamp));
    CountAround(s.items, i, Depth);
    CountAround(s.items, i, InLane(item.isSend));
    CountAround(s.items, i, Total);
    if item.stage.Refused? || item.stage.Taken? {
      assert multiset(s.m.queuedAt)[item.stamp] > 0;
    }
  }

  /** A request is refused for room exactly when its lane holds 20 000 sends, or 1024 control requests, and the actor runs. */
  lemma RefusedExactlyWhenFull(s: State, i: nat)
    requires Tallied(s) && i < |s.items| && s.items[i].stage.Recorded?
    ensures var item, next := s.items[i], Next(s, Advance(i));
            var waiting := Count(s.items, Waiting(item.isSend));
            && |next.items| == |s.items| && next.m == s.m
            && (next.items[i].stage == Refused(Full) <==> !s.stopped && waiting == if item.isSend then 20_000 else 1_024)
            && (next.items[i].stage == Queued <==> !s.stopped && waiting < if item.isSend then 20_000 else 1_024)
            && (next.items[i].stage == Refused(Disconnected) <==> s.stopped)
  {
    hide Count;
  }

  /** What waits in a lane: the requests put in and not yet taken out. */
  lemma {:induction false} WaitingAre(items: seq<Item>, isSend: bool)
    ensures Count(items, Waiting(isSend)) == |WaitingIn(items, isSend)|
    ensures forall item | item in WaitingIn(items, isSend) :: item in items && item.stage == Queued && item.isSend == isSend
  {
    if items != [] {
      WaitingAre(items[1..], isSend);
    }
  }

  function WaitingIn(items: seq<Item>, isSend: bool): seq<Item> {
    if items == [] then []
    else (if items[0].stage.Queued? && items[0].isSend == isSend then [items[0]] else []) + WaitingIn(items[1..], isSend)
  }

  /** The actor works on one request at a time, and on none once it has exited. */
  ghost predicate OneTaken(s: State) {
    && (forall i, j | 0 <= i < j < |s.items| :: !WithActor(s.items[i].stage) || !WithActor(s.items[j].stage))
    && (s.stopped ==> forall i | 0 <= i < |s.items| :: !WithActor(s.items[i].stage))
  }

  lemma StepKeepsOneTaken(s: State, step: Step)
    requires OneTaken(s)
    ensures OneTaken(Next(s, step))
    ensures s.stopped ==> Next(s, step).stopped && Next(s, step).dequeued == s.dequeued
  {
    hide Count, DropFirst;
    match step
    case Begin(stamp, isSend) =>
    case Advance(i) => if i < |s.items| { AdvanceKeepsOneTaken(s, i); }
    case Receive(i) => if Next(s, step) != s { assert forall item | item in s.items :: !WithActor(item.stage); }
    case Exit =>
  }

  lemma AdvanceKeepsOneTaken(s: State, i: nat)
    requires OneTaken(s) && i < |s.items|
    ensures OneTaken(Advanced(s, i)) && Advanced(s, i).stopped == s.stopped
    ensures s.stopped ==> Advanced(s, i).dequeued == s.dequeued
  {
    hide Count, DropFirst, DropStamp, LaneDepth, SetLaneDepth, AddToLane, RaiseMax, WrappingDec, SaturatingDec;
    var next := Advanced(s, i);
    assert WithActor(s.items[i].stage) || next.dequeued == s.dequeued;
    if |next.items| == |s.items| {
      assert forall k | 0 <= k < |s.items| :: WithActor(next.items[k].stage) ==> WithActor(s.items[k].stage);
    } else {
      assert forall k | 0 <= k < |next.items| :: next.items[k] == if k < i then s.items[k] else s.items[k + 1];
    }
  }

  /** In every run at most one request is with the actor; after its exit none is, and none is ever completed. */
  lemma {:induction false} ActorTakesOneAtATime(s: State, steps: seq<Step>)
    requires OneTaken(s)
    ensures OneTaken(After(s, steps))
    ensures s.stopped ==> After(s, steps).stopped && After(s, steps).dequeued == s.dequeued
    decreases |steps|
  {
    hide Next, OneTaken;
    if steps != [] {
      StepKeepsOneTaken(s, steps[0]);
      ActorTakesOneAtATime(Next(s, steps[0]), steps[1..]);
    }
  }

  // ---- every step keeps the tally -------------------------------------------------------------------------

  lemma CountsChanged(s: State, i: nat, stage: Stage)
    requires i < |s.items|
    ensures var item := s.items[i].(stage := stage);
            forall mark :: Count(s.items[i := item], mark) + One(s.items[i], mark) == Count(s.items, mark) + One(item, mark)
  {
    var item := s.items[i].(stage := stage);
    forall mark
      ensures Count(s.items[i := item], mark) + One(s.items[i], mark) == Count(s.items, mark) + One(item, mark)
    {
      CountChanged(s.items, i, item, mark);
    }
  }

  lemma CountsWithout(s: State, i: nat)
    requires i < |s.items|
    ensures forall mark :: Count(s.items, mark) == Count(Without(s.items, i), mark) + One(s.items[i], mark)
  {
    forall mark ensures Count(s.items, mark) == Count(Without(s.items, i), mark) + One(s.items[i], mark) {
      CountAround(s.items, i, mark);
    }
  }

  lemma CountsAdded(items: seq<Item>, item: Item)
    ensures forall mark :: Count(items + [item], mark) == Count(items, mark) + One(item, mark)
  {
    forall mark ensures Count(items + [item], mark) == Count(items, mark) + One(item, mark) {
      CountJoins(items, [item], mark);
      assert [item][1..] == [];
    }
  }

  lemma BeginKeepsTally(s: State, stamp: int, isSend: bool)
    requires Tallied(s)
    ensures Tallied(Next(s, Begin(stamp, isSend)))
  {
    hide Count;
    CountsAdded(s.items, Item(stamp, isSend, Stamped));
  }

  /** Recording and sending. */
  lemma RecordingKeepsTally(s: State, i: nat)
    requires Tallied(s) && i < |s.items|
    requires var stage := s.items[i].stage; stage.Stamped? || stage.Counted? || stage.Deepened? || stage.Laned?
    ensures Tallied(Advanced(s, i))
  {
    RecordingKeepsStamps(s, i);
    RecordingKeepsCounters(s, i);
    hide StampsTallied, CountersTallied, Advanced;
  }

  lemma RecordingKeepsStamps(s: State, i: nat)
    requires StampsTallied(s) && i < |s.items|
    requires var stage := s.items[i].stage; stage.Stamped? || stage.Counted? || stage.Deepened? || stage.Laned?
    ensures StampsTallied(Advanced(s, i))
  {
    hide Count;
    CountsChanged(s, i, Advanced(s, i).items[i].stage);
  }

  lemma RecordingKeepsCounters(s: State, i: nat)
    requires CountersTallied(s) && i < |s.items|
    requires var stage := s.items[i].stage; stage.Stamped? || stage.Counted? || stage.Deepened? || stage.Laned?
    ensures CountersTallied(Advanced(s, i))
  {
    hide Count;
    CountsChanged(s, i, Advanced(s, i).items[i].stage);
  }

  lemma SendingKeepsTally(s: State, i: nat)
    requires Tallied(s) && i < |s.items| && s.items[i].stage.Recorded?
    ensures Tallied(Advanced(s, i))
  {
    hide Count;
    CountsChanged(s, i, Advanced(s, i).items[i].stage);
  }

  /** Dropping a stamp, in a rollback or by the actor. */
  lemma UnstampingKeepsTally(s: State, i: nat)
    requires Tallied(s) && i < |s.items|
    requires var stage := s.items[i].stage; stage.Refused? || stage.Taken?
    ensures Tallied(Advanced(s, i))
  {
    UnstampingKeepsStamps(s, i);
    UnstampingKeepsCounters(s, i);
    hide StampsTallied, CountersTallied, Advanced;
  }

  lemma UnstampingKeepsCounters(s: State, i: nat)
    requires CountersTallied(s) && i < |s.items|
    requires var stage := s.items[i].stage; stage.Refused? || stage.Taken?
    ensures CountersTallied(Advanced(s, i))
  {
    hide Count, DropFirst;
    CountsChanged(s, i, Advanced(s, i).items[i].stage);
  }

  lemma UnstampingKeepsStamps(s: State, i: nat)
    requires Tallied(s) && i < |s.items|
    requires var stage := s.items[i].stage; stage.Refused? || stage.Taken?
    ensures StampsTallied(Advanced(s, i))
  {
    SubtractionsAreExact(s, i);
    hide Count, DropFirst, CountersTallied;
    var next := Advanced(s, i);
    forall t ensures multiset(next.m.queuedAt)[t] == Count(next.items, Stamp(t)) {
      UnstampingKeepsStamp(s, i, t);
    }
  }

  lemma UnstampingKeepsStamp(s: State, i: nat, t: int)
    requires i < |s.items| && s.items[i].stamp in s.m.queuedAt
    requires var stage := s.items[i].stage; stage.Refused? || stage.Taken?
    requires multiset(s.m.queuedAt)[t] == Count(s.items, Stamp(t))
    ensures multiset(Advanced(s, i).m.queuedAt)[t] == Count(Advanced(s, i).items, Stamp(t))
  {
    hide Count, DropFirst;
    var item, next := s.items[i], Advanced(s, i);
    CountChanged(s.items, i, next.items[i], Stamp(t));
    DropFirstCounts(s.m.queuedAt, item.stamp, t);
  }

  lemma LoweringKeepsTally(s: State, i: nat)
    requires Tallied(s) && i < |s.items|
    requires var stage := s.items[i].stage; stage.Unstamped? || stage.Shallower? || stage.TakenUnstamped?
    ensures Tallied(Advanced(s, i))
  {
    hide Count;
    CountsChanged(s, i, Advanced(s, i).items[i].stage);
    SubtractionsAreExact(s, i);
  }

  lemma FinishingKeepsTally(s: State, i: nat)
    requires Tallied(s) && i < |s.items|
    requires var stage := s.items[i].stage; stage.Unlaned? || stage.Uncounted? || stage.TakenShallower?
    ensures Tallied(Advanced(s, i))
  {
    hide Count;
    var stage := s.items[i].stage;
    SubtractionsAreExact(s, i);
    if stage == Unlaned(Full) {
      CountsChanged(s, i, Uncounted);
    } else {
      CountsWithout(s, i);
    }
  }

  lemma StepKeepsTally(s: State, step: Step)
    requires Tallied(s)
    ensures Tallied(Next(s, step))
  {
    hide Tallied, Advanced;
    match step {
      case Begin(stamp, isSend) => BeginKeepsTally(s, stamp, isSend);
      case Advance(i) =>
        if i < |s.items| { AdvanceKeepsTally(s, i); }
      case Receive(i) => ReceiveKeepsTally(s, i);
      case Exit => ExitKeepsTally(s);
    }
  }

  lemma AdvanceKeepsTally(s: State, i: nat)
    requires Tallied(s) && i < |s.items|
    ensures Tallied(Advanced(s, i))
  {
    hide Tallied;
    var stage := s.items[i].stage;
    if stage.Stamped? || stage.Counted? || stage.Deepened? || stage.Laned? {
      RecordingKeepsTally(s, i);
    } else if stage.Recorded? {
      SendingKeepsTally(s, i);
    } else if stage.Refused? || stage.Taken? {
      UnstampingKeepsTally(s, i);
    } else if stage.Unstamped? || stage.Shallower? || stage.TakenUnstamped? {
      LoweringKeepsTally(s, i);
    } else if !stage.Queued? {
      FinishingKeepsTally(s, i);
    }
  }

  lemma ReceiveKeepsTally(s: State, i: nat)
    requires Tallied(s)
    ensures Tallied(Next(s, Receive(i)))
  {
    hide Count;
    if i < |s.items| {
      CountsChanged(s, i, Taken);
    }
  }

  lemma ExitKeepsTally(s: State)
    requires Tallied(s)
    ensures Tallied(Next(s, Exit))
  {
  }

  // ---- the maximum ------------------------------------------------------------------------------------------

  lemma StepKeepsPeak(s: State, step: Step)
    requires Tallied(s) && PeakKept(s)
    ensures PeakKept(Next(s, step))
  {
    hide Count, Tallied, Advanced, PeakKept;
    if step.Advance? {
      if step.i < |s.items| {
        AdvanceKeepsPeak(s, step.i);
      }
    } else {
      OtherStepsKeepPeak(s, step);
    }
  }

  lemma OtherStepsKeepPeak(s: State, step: Step)
    requires PeakKept(s) && !step.Advance?
    ensures PeakKept(Next(s, step))
  {
    hide Count;
    if step.Receive? && step.i < |s.items| {
      CountsChanged(s, step.i, Taken);
    } else if step.Begin? {
      CountsAdded(s.items, Item(step.stamp, step.isSend, Stamped));
    }
  }

  lemma AdvanceKeepsPeak(s: State, i: nat)
    requires Tallied(s) && PeakKept(s) && i < |s.items|
    ensures PeakKept(Advanced(s, i))
  {
    hide Count, Tallied, DropFirst, PeakKept;
    var stage := s.items[i].stage;
    SubtractionsAreExact(s, i);
    if stage.Counted? || stage.Deepened? || stage.Laned? {
      RaisingKeepsPeak(s, i);
    } else if !stage.Queued? {
      NotRaisingKeepsPeak(s, i);
    }
  }

  lemma RaisingKeepsPeak(s: State, i: nat)
    requires PeakKept(s) && i < |s.items|
    requires var stage := s.items[i].stage; stage.Counted? || stage.Deepened? || stage.Laned?
    ensures PeakKept(Advanced(s, i))
  {
    hide Count;
    var next := Advanced(s, i);
    CountsChanged(s, i, next.items[i].stage);
    var item := s.items[i];
    if item.stage.Counted? {
      CountAround(next.items, i, Raise(s.m.depth + 1));
    } else {
      CountAround(s.items, i, Raise(item.stage.seen));
    }
  }

  lemma NotRaisingKeepsPeak(s: State, i: nat)
    requires PeakKept(s) && i < |s.items|
    requires var stage := s.items[i].stage;
             && !stage.Counted? && !stage.Deepened? && !stage.Laned? && !stage.Queued?
             && (stage.Unstamped? ==> s.m.depth > 0)
    ensures PeakKept(Advanced(s, i))
  {
    hide Count, DropFirst, Holds;
    RaisesUnchanged(s, i);
  }

  lemma RaisesUnchanged(s: State, i: nat)
    requires i < |s.items|
    requires var stage := s.items[i].stage; !stage.Counted? && !stage.Deepened? && !stage.Laned? && !stage.Queued?
    ensures forall n: nat :: Count(Advanced(s, i).items, Raise(n)) == Count(s.items, Raise(n))
  {
    hide Count, DropFirst;
    var next := Advanced(s, i);
    forall n: nat ensures Count(next.items, Raise(n)) == Count(s.items, Raise(n)) {
      if |next.items| < |s.items| {
        CountAround(s.items, i, Raise(n));
      } else {
        CountChanged(s.items, i, next.items[i], Raise(n));
      }
    }
  }

  /** From the start, whatever happens: exact counters and an exact maximum. */
  lemma {:induction false} AccountingIsExact(s: State, steps: seq<Step>)
    requires Tallied(s) && PeakKept(s)
    ensures Tallied(After(s, steps)) && PeakKept(After(s, steps))
    decreases |steps|
  {
    hide Tallied, PeakKept, Next;
    if steps != [] {
      StepKeepsTally(s, steps[0]);
      StepKeepsPeak(s, steps[0]);
      AccountingIsExact(Next(s, steps[0]), steps[1..]);
    }
  }

  // ---- what the counters tell -------------------------------------------------------------------------------

  function Stamps(items: seq<Item>): seq<int> { seq(|items|, i requires 0 <= i < |items| => items[i].stamp) }

  lemma {:induction false} AllHold(items: seq<Item>, mark: Mark)
    requires forall item | item in items :: Holds(item, mark)
    ensures Count(items, mark) == |items|
  {
    if items != [] {
      AllHold(items[1..], mark);
    }
  }

  lemma {:induction false} WaitingByLane(items: seq<Item>)
    requires forall item | item in items :: item.stage.Queued?
    ensures forall t :: Count(items, Stamp(t)) == multiset(Stamps(items))[t]
    ensures forall b :: Count(items, InLane(b)) == Count(items, Waiting(b))
    ensures Count(items, InLane(true)) + Count(items, InLane(false)) == |items|
  {
    if items != [] {
      var first, rest := items[0], items[1..];
      WaitingByLane(rest);
      WaitingCounts(first);
      assert first.stage.Queued?;
      assert Stamps(items) == [first.stamp] + Stamps(rest);
      hide Holds, One, Stamps;
    }
  }

  lemma WaitingCounts(item: Item)
    requires item.stage.Queued?
    ensures forall t :: One(item, Stamp(t)) == if t == item.stamp then 1 else 0
    ensures forall b :: One(item, InLane(b)) == One(item, Waiting(b)) == if b == item.isSend then 1 else 0
  {
  }

  /** When no operation is under way, every counter is what its name says. */
  lemma AtRest(s: State)
    requires Tallied(s) && PeakKept(s) && forall item | item in s.items :: item.stage.Queued?
    ensures s.m.depth == |s.items| == s.m.sendDepth + s.m.controlDepth
    ensures s.m.sendDepth <= 20_000 && s.m.controlDepth <= 1_024
    ensures multiset(s.m.queuedAt) == multiset(Stamps(s.items))
    ensures s.m.enqueuedTotal == s.dequeued + s.m.depth
    ensures s.m.backpressureTotal == s.fulls
    ensures s.m.maxDepth == s.peak
  {
    hide Count;
    AllHold(s.items, Depth);
    AllHold(s.items, Total);
    WaitingByLane(s.items);
    SomeHold(s.items, Pushback);
    SomeHold(s.items, Raise(s.peak));
    forall t ensures multiset(s.m.queuedAt)[t] == multiset(Stamps(s.items))[t] {
      assert multiset(s.m.queuedAt)[t] == Count(s.items, Stamp(t));
    }
  }

  lemma {:induction false} SomeHold(items: seq<Item>, mark: Mark)
    ensures Count(items, mark) > 0 <==> exists item :: item in items && Holds(item, mark)
  {
    if items != [] {
      SomeHold(items[1..], mark);
      assert Holds(items[0], mark) ==> items[0] in items;
      assert forall item :: item in items <==> item == items[0] || item in items[1..];
    }
  }

  /** `queued_at.iter().min()`. */
  function Oldest(queue: seq<int>): Option<int> {
    if queue == [] then None
    else match Oldest(queue[1..]) case None => Some(queue[0]) case Some(t) => Some(Min(queue[0], t))
  }

  lemma {:induction false} OldestIsMinimum(queue: seq<int>, t: int)
    ensures Oldest(queue) == Some(t) <==> t in queue && forall u | u in queue :: t <= u
  {
    if queue != [] {
      var rest := Oldest(queue[1..]);
      assert forall u :: u in queue <==> u == queue[0] || u in queue[1..];
      if rest.Some? {
        OldestIsMinimum(queue[1..], rest.value);
        assert rest.value in queue && queue[0] in queue;
      } else {
        assert queue == [queue[0]];
      }
    }
  }

  /** The oldest wait of a snapshot is that of a request on its way, whatever order `queued_at` is in. */
  lemma OldestIsOfSomeRequest(s: State, t: int)
    requires Tallied(s)
    ensures Oldest(s.m.queuedAt) == Some(t) <==>
            && (exists item :: item in s.items && Holds(item, Stamp(t)))
            && (forall item | item in s.items && Holds(item, Stamp(item.stamp)) :: t <= item.stamp)
  {
    hide Holds, Count;
    OldestIsMinimum(s.m.queuedAt, t);
    forall u ensures u in s.m.queuedAt <==> exists item :: item in s.items && Holds(item, Stamp(u)) {
      SomeHold(s.items, Stamp(u));
      assert u in s.m.queuedAt <==> multiset(s.m.queuedAt)[u] > 0;
    }
    forall item, u | Holds(item, Stamp(u)) ensures item.stamp == u { StampIsOwn(item, u); }
  }

  lemma StampIsOwn(item: Item, t: int)
    requires Holds(item, Stamp(t))
    ensures item.stamp == t
  {
  }

  // ---- the recording functions are runs of these steps ---------------------------------------------------------

  function Repeat(step: Step, n: nat): seq<Step> { seq(n, _ => step) }

  lemma {:induction false} RecordingIsFiveSteps(s: State, t: int, isSend: bool)
    ensures var i := |s.items|;
            After(s, [Begin(t, isSend)] + Repeat(Advance(i), 4))
            == s.(m := Enqueued(s.m, t, isSend), items := s.items + [Item(t, isSend, Recorded)], peak := Max(s.peak, s.m.depth + 1))
  {
    hide DropFirst, Count;
    var i := |s.items|;
    var steps := [Begin(t, isSend)] + Repeat(Advance(i), 4);
    assert steps[1..] == Repeat(Advance(i), 4);
    UnrollFour(Next(s, steps[0]), i);
  }

  lemma After1(s: State, a: Step)
    ensures After(s, [a]) == Next(s, a)
  {
    hide Next;
    assert [a][1..] == [];
  }

  lemma After3(s: State, a: Step)
    ensures After(s, Repeat(a, 3)) == Next(Next(Next(s, a), a), a)
  {
    hide Next;
    assert Repeat(a, 3)[1..] == Repeat(a, 2) && Repeat(a, 2)[1..] == [a];
    After1(Next(Next(s, a), a), a);
    assert After(Next(s, a), Repeat(a, 2)) == After(Next(Next(s, a), a), [a]);
  }

  /** Only the last of several changes to a request shows. */
  lemma LastChangeShows(s: State, i: nat, first: Stage, m: Metrics, second: Stage, n: Metrics)
    requires i < |s.items|
    ensures To(To(s, i, first, m), i, second, n) == To(s, i, second, n)
    ensures Done(To(s, i, first, m), i, n) == Done(s, i, n)
  {
    var changed := To(s, i, first, m).items;
    assert changed[..i] == s.items[..i] && changed[i + 1..] == s.items[i + 1..];
  }

  lemma ToIs(s: State, i: nat, stage: Stage, m: Metrics)
    requires i < |s.items|
    ensures var t := To(s, i, stage, m);
            && |t.items| == |s.items| && t.m == m && t.items[i] == s.items[i].(stage := stage) && t.dequeued == s.dequeued
  {
  }

  /** The counters after each of the first four steps of a rollback. */
  function RollbackStage(m: Metrics, item: Item, k: nat): Metrics {
    var m1 := DropStamp(m, item.stamp);
    var m2 := m1.(depth := WrappingDec(m1.depth));
    var m3 := SetLaneDepth(m2, item.isSend, WrappingDec(LaneDepth(m2, item.isSend)));
    if k == 0 then m else if k == 1 then m1 else if k == 2 then m2 else if k == 3 then m3
    else m3.(enqueuedTotal := WrappingDec(m3.enqueuedTotal))
  }

  lemma RollbackStages(m: Metrics, item: Item)
    ensures RollbackStage(m, item, 0) == m
    ensures RollbackStage(m, item, 4) == RolledBack(m, item.stamp, item.isSend)
  {
    hide DropFirst;
  }

  lemma RollingBackStep(s: State, i: nat, why: Refusal, k: nat)
    requires i < |s.items| && s.items[i].stage == Refused(why) && 1 <= k <= 3
    ensures var stages := [Refused(why), Unstamped(why), Shallower(why), Unlaned(why)];
            Next(To(s, i, stages[k - 1], RollbackStage(s.m, s.items[i], k - 1)), Advance(i))
            == To(s, i, stages[k], RollbackStage(s.m, s.items[i], k))
  {
    hide DropFirst, Count, To;
    var stages := [Refused(why), Unstamped(why), Shallower(why), Unlaned(why)];
    var m, n := RollbackStage(s.m, s.items[i], k - 1), RollbackStage(s.m, s.items[i], k);
    ToIs(s, i, stages[k - 1], m);
    LastChangeShows(s, i, stages[k - 1], m, stages[k], n);
  }

  lemma RollingBackEnds(s: State, i: nat, why: Refusal)
    requires i < |s.items| && s.items[i].stage == Refused(why)
    ensures var m, n := RollbackStage(s.m, s.items[i], 3), RollbackStage(s.m, s.items[i], 4);
            Next(To(s, i, Unlaned(why), m), Advance(i)) == if why == Full then To(s, i, Uncounted, n) else Done(s, i, n)
  {
    hide DropFirst, Count, To, Done;
    var m, n := RollbackStage(s.m, s.items[i], 3), RollbackStage(s.m, s.items[i], 4);
    ToIs(s, i, Unlaned(why), m);
    LastChangeShows(s, i, Unlaned(why), m, Uncounted, n);
  }

  /** A full lane's pushback is counted last. */
  lemma PushbackStep(s: State, i: nat, m: Metrics)
    requires i < |s.items|
    ensures Next(To(s, i, Uncounted, m), Advance(i)) == Done(s, i, m.(backpressureTotal := m.backpressureTotal + 1))
  {
    hide Count, To, Done;
    ToIs(s, i, Uncounted, m);
    LastChangeShows(s, i, Uncounted, m, Uncounted, m.(backpressureTotal := m.backpressureTotal + 1));
  }

  lemma ToItself(s: State, i: nat)
    requires i < |s.items|
    ensures To(s, i, s.items[i].stage, s.m) == s
  {
    assert s.items[i := s.items[i]] == s.items;
  }

  /** The steps of a refused request's rollback are the rollback, and then, for a full lane, the pushback is counted. */
  lemma RollingBackIsItsSteps(s: State, i: nat, why: Refusal)
    requires i < |s.items| && s.items[i].stage == Refused(why)
    ensures var m := RolledBack(s.m, s.items[i].stamp, s.items[i].isSend);
            After(s, Repeat(Advance(i), if why == Full then 5 else 4))
            == Done(s, i, if why == Full then m.(backpressureTotal := m.backpressureTotal + 1) else m)
  {
    hide Next, To, Done, RolledBack, RollbackStage, After, Repeat;
    var m := RollbackStage(s.m, s.items[i], 4);
    ToItself(s, i);
    RollingBackStep(s, i, why, 1);
    RollingBackStep(s, i, why, 2);
    RollingBackStep(s, i, why, 3);
    RollingBackEnds(s, i, why);
    RollbackStages(s.m, s.items[i]);
    UnrollFour(s, i);
    if why == Full {
      PushbackStep(s, i, m);
      AfterFive(s, Advance(i));
    }
  }

  lemma AfterFive(s: State, a: Step)
    ensures After(s, Repeat(a, 5)) == Next(After(s, Repeat(a, 4)), a)
  {
    hide Next;
    assert Repeat(a, 5) == Repeat(a, 4) + [a];
    AfterJoins(s, Repeat(a, 4), [a]);
    After1(After(s, Repeat(a, 4)), a);
  }

  lemma {:induction false} AfterJoins(s: State, a: seq<Step>, b: seq<Step>)
    ensures After(s, a + b) == After(After(s, a), b)
    decreases |a|
  {
    hide Next;
    if a == [] {
      assert a + b == b;
    } else {
      assert (a + b)[1..] == a[1..] + b;
      AfterJoins(Next(s, a[0]), a[1..], b);
    }
  }

  lemma DequeuingSteps(s: State, i: nat, m1: Metrics, m2: Metrics, m3: Metrics)
    requires i < |s.items| && s.items[i].stage == Taken && m1 == DropStamp(s.m, s.items[i].stamp)
    requires m2 == m1.(depth := SaturatingDec(m1.depth))
    requires var isSend := s.items[i].isSend; m3 == SetLaneDepth(m2, isSend, SaturatingDec(LaneDepth(m2, isSend)))
    ensures Next(s, Advance(i)) == To(s, i, TakenUnstamped, m1)
    ensures Next(To(s, i, TakenUnstamped, m1), Advance(i)) == To(s, i, TakenShallower, m2)
    ensures Next(To(s, i, TakenShallower, m2), Advance(i)) == Done(s, i, m3).(dequeued := s.dequeued + 1)
  {
    hide DropFirst, Count, To, Done, SetLaneDepth, LaneDepth;
    ToIs(s, i, TakenUnstamped, m1);
    ToIs(s, i, TakenShallower, m2);
    LastChangeShows(s, i, TakenUnstamped, m1, TakenShallower, m2);
    LastChangeShows(s, i, TakenShallower, m2, TakenShallower, m3);
  }

  /** The steps of the actor for a request it took are the recording of a dequeue. */
  lemma DequeuingIsThreeSteps(s: State, i: nat)
    requires i < |s.items| && s.items[i].stage == Taken
    ensures After(s, Repeat(Advance(i), 3))
            == Done(s, i, Dequeued(s.m, s.items[i].stamp, s.items[i].isSend)).(dequeued := s.dequeued + 1)
  {
    var item := s.items[i];
    hide DropFirst, Next, To, Done, After, Repeat;
    var m1 := DropStamp(s.m, item.stamp);
    var m2 := m1.(depth := SaturatingDec(m1.depth));
    var m3 := SetLaneDepth(m2, item.isSend, SaturatingDec(LaneDepth(m2, item.isSend)));
    assert m3 == Dequeued(s.m, item.stamp, item.isSend);
    hide *;
    DequeuingSteps(s, i, m1, m2, m3);
    After3(s, Advance(i));
  }

  lemma {:induction false} UnrollFour(s: State, i: nat)
    requires i < |s.items|
    ensures After(s, Repeat(Advance(i), 4)) == Next(Next(Next(Next(s, Advance(i)), Advance(i)), Advance(i)), Advance(i))
  {
    hide Next;
    assert Repeat(Advance(i), 4)[1..] == Repeat(Advance(i), 3);
    assert Repeat(Advance(i), 3)[1..] == Repeat(Advance(i), 2);
    assert Repeat(Advance(i), 2)[1..] == Repeat(Advance(i), 1);
    assert Repeat(Advance(i), 1)[1..] == [];
    var one := Next(s, Advance(i));
    var two := Next(one, Advance(i));
    var three := Next(two, Advance(i));
    assert After(three, Repeat(Advance(i), 1)) == Next(three, Advance(i));
    assert After(two, Repeat(Advance(i), 2)) == Next(three, Advance(i));
    assert After(one, Repeat(Advance(i), 3)) == Next(three, Advance(i));
  }

  lemma RollbackUndoesCounters(m: Metrics, t: int, isSend: bool)
    ensures var undone := RolledBack(Enqueued(m, t, isSend), t, isSend);
            && undone.queuedAt == DropFirst(m.queuedAt + [t], t)
            && undone == m.(queuedAt := undone.queuedAt, maxDepth := Max(m.depth + 1, m.maxDepth))
  {
    hide DropFirst;
  }

  /** A refused request leaves only a trace in the maximum. */
  lemma RollbackUndoesRecord(m: Metrics, t: int, isSend: bool)
    ensures var undone := RolledBack(Enqueued(m, t, isSend), t, isSend);
            && multiset(undone.queuedAt) == multiset(m.queuedAt)
            && undone == m.(queuedAt := undone.queuedAt, maxDepth := Max(m.depth + 1, m.maxDepth))
  {
    hide DropFirst, RolledBack, Enqueued;
    RollbackUndoesCounters(m, t, isSend);
    DropFirstDrops(m.queuedAt + [t], t);
  }
}
