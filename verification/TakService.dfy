/**
 * The TAK connector's outbound side: a bounded queue, a drain that sends before it
 * removes, the service around them, and the worker loop with its backoff
 * (`TakOutboundQueue`, `drain_queue_to_sender`, `TakService`, `TakServiceWorker`,
 * `worker_timing.rs`). The sender is an oracle with a log of what it delivered.
 */
module TakService {
  import opened Wrappers

  datatype Kind = Location | Chat | Ping | Keepalive

  datatype Payload = Payload(kind: Kind, xml: string)

  datatype TakError = QueueFull | BuildFailed | SendFailed | ServiceStopped

  /** `TakServiceDispatchReport`, without its copy of the status. */
  datatype Report = Report(enqueued: bool, sent: nat, error: Option<TakError>)

  // ---- the service as a value ------------------------------------------------------------

  datatype Service = Service(
    capacity: nat,
    pending: seq<Payload>,
    enqueued: nat,
    droppedFull: nat,
    running: bool,
    totalSent: nat,
    totalFailed: nat,
    lastError: Option<TakError>,
    delivered: seq<Payload>)

  function NewService(capacity: nat, delivered: seq<Payload>): Service {
    Service(Max(capacity, 1), [], 0, 0, false, 0, 0, None, delivered)
  }

  function Pushed(s: Service, p: Payload): (r: (Service, bool)) {
    if |s.pending| >= s.capacity then (s.(droppedFull := Saturated(s.droppedFull + 1)), false)
    else (s.(pending := s.pending + [p], enqueued := Saturated(s.enqueued + 1)), true)
  }

  function Failed(s: Service, e: TakError): Service {
    s.(totalFailed := Saturated(s.totalFailed + 1), lastError := Some(e))
  }

  /** A drain in which `k` sends succeed before the first failure, if there is one. */
  function Drained(s: Service, k: nat): Service {
    var n := Min(k, |s.pending|);
    s.(pending := s.pending[n..], delivered := s.delivered + s.pending[..n])
  }

  /** `flush_after_enqueue`. */
  function Flushed(s: Service, enqueueError: Option<TakError>, k: nat): (r: (Service, Report)) {
    match enqueueError
    case Some(e) => (Failed(s, e), Report(false, 0, Some(e)))
    case None =>
      var n := |s.pending|;
      if k >= n then
        (Drained(s, k).(totalSent := Saturated(s.totalSent + n), lastError := None), Report(true, n, None))
      else (Failed(Drained(s, k), SendFailed), Report(true, 0, Some(SendFailed)))
  }

  /** What a caller asks of the service; a payload that could not be built is absent. */
  datatype Op = Start | Stop | Enqueue(built: Option<Payload>) | FlushOnce

  /** One call under the service's lock; the report is absent when there is none. */
  function Called(s: Service, op: Op, k: nat): (r: (Service, Option<Report>)) {
    match op
    case Start => (s.(running := true), None)
    case Stop => (s.(running := false), None)
    case Enqueue(built) =>
      if !s.running then (s, None)
      else if built.None? then
        var (t, report) := Flushed(s, Some(BuildFailed), k); (t, Some(report))
      else
        var (t, accepted) := Pushed(s, built.value);
        var (u, report) := Flushed(t, if accepted then None else Some(QueueFull), k); (u, Some(report))
    case FlushOnce =>
      if !s.running then (s, None) else var (t, report) := Flushed(s, None, k); (t, Some(report))
  }

  // ---- the objects ---------------------------------------------------------------------------

  class Sender {
    ghost var delivered: seq<Payload>

    constructor ()
      ensures delivered == []
    {
      delivered := [];
    }

    /** Succeeds or fails as it likes; a success delivers. */
    method Send(p: Payload) returns (ok: bool)
      modifies this
      ensures delivered == if ok then old(delivered) + [p] else old(delivered)
    {
      ok := *;
      if ok {
        delivered := delivered + [p];
      }
    }
  }

  class OutboundQueue {
    const capacity: nat
    var pending: seq<Payload>
    var enqueued: nat
    var droppedFull: nat

    constructor (capacity: nat)
      ensures this.capacity == capacity && pending == [] && enqueued == droppedFull == 0
    {
      this.capacity := capacity;
      pending, enqueued, droppedFull := [], 0, 0;
    }

    method Push(p: Payload) returns (ok: bool)
      modifies this
      ensures ok == (|old(pending)| < capacity)
      ensures pending == if ok then old(pending) + [p] else old(pending)
      ensures enqueued == if ok then Saturated(old(enqueued) + 1) else old(enqueued)
      ensures droppedFull == if ok then old(droppedFull) else Saturated(old(droppedFull) + 1)
    {
      if |pending| >= capacity {
        droppedFull := Saturated(droppedFull + 1);
        return false;
      }
      pending := pending + [p];
      enqueued := Saturated(enqueued + 1);
      ok := true;
    }

    method Pop() returns (p: Option<Payload>)
      modifies this`pending
      ensures p == if old(pending) == [] then None else Some(old(pending)[0])
      ensures pending == if old(pending) == [] then [] else old(pending)[1..]
    {
      if pending == [] {
        return None;
      }
      p := Some(pending[0]);
      pending := pending[1..];
    }
  }

  /** Sends the pending payloads in order and removes each after it was sent; `k` sends succeeded. */
  method DrainQueueToSender(queue: OutboundQueue, sender: Sender) returns (r: Result<nat, TakError>, ghost k: nat)
    modifies queue`pending, sender
    ensures k <= |old(queue.pending)|
    ensures queue.pending == old(queue.pending)[k..]
    ensures sender.delivered == old(sender.delivered) + old(queue.pending)[..k]
    ensures r == if k == |old(queue.pending)| then Ok(k) else Err(SendFailed)
  {
    var sent := 0;
    k := 0;
    while queue.pending != []
      invariant sent == k <= |old(queue.pending)|
      invariant queue.pending == old(queue.pending)[k..]
      invariant sender.delivered == old(sender.delivered) + old(queue.pending)[..k]
      decreases |queue.pending|
    {
      var payload := queue.pending[0];
      var ok := sender.Send(payload);
      if !ok {
        return Err(SendFailed), k;
      }
      var popped := queue.Pop();
      assert old(queue.pending)[..k + 1] == old(queue.pending)[..k] + [payload];
      sent := sent + 1;
      k := k + 1;
    }
    r := Ok(sent);
  }

  class TakService {
    const queue: OutboundQueue
    const sender: Sender
    var running: bool
    var totalSent: nat
    var totalFailed: nat
    var lastError: Option<TakError>

    constructor (queueCapacity: nat, sender: Sender)
      ensures fresh(queue) && this.sender == sender
      ensures State() == NewService(queueCapacity, sender.delivered)
    {
      queue := new OutboundQueue(if queueCapacity > 1 then queueCapacity else 1);
      this.sender := sender;
      running, totalSent, totalFailed, lastError := false, 0, 0, None;
    }

    ghost function State(): Service
      reads this, queue, sender
    {
      Service(queue.capacity, queue.pending, queue.enqueued, queue.droppedFull,
              running, totalSent, totalFailed, lastError, sender.delivered)
    }

    method SetRunning(on: bool)
      modifies this`running
      ensures State() == Called(old(State()), if on then Start else Stop, 0).0
    {
      running := on;
    }

    method FlushAfterEnqueue(enqueueError: Option<TakError>) returns (report: Report, ghost k: nat)
      modifies this`totalSent, this`totalFailed, this`lastError, queue`pending, sender
      ensures (State(), report) == Flushed(old(State()), enqueueError, k)
    {
      k := 0;
      if enqueueError.Some? {
        totalFailed := Saturated(totalFailed + 1);
        lastError := enqueueError;
        return Report(false, 0, enqueueError), k;
      }
      var drained;
      drained, k := DrainQueueToSender(queue, sender);
      match drained {
        case Ok(sent) =>
          totalSent := Saturated(totalSent + sent);
          lastError := None;
          report := Report(true, sent, None);
        case Err(e) =>
          totalFailed := Saturated(totalFailed + 1);
          lastError := Some(e);
          report := Report(true, 0, Some(e));
      }
    }

    method EnqueuePayload(built: Option<Payload>) returns (report: Option<Report>, ghost k: nat)
      modifies this, queue, sender
      ensures (State(), report) == Called(old(State()), Enqueue(built), k)
    {
      k := 0;
      if !running {
        return None, k;
      }
      var error: Option<TakError> := None;
      if built.None? {
        error := Some(BuildFailed);
      } else {
        var accepted := queue.Push(built.value);
        error := if accepted then None else Some(QueueFull);
      }
      var r;
      r, k := FlushAfterEnqueue(error);
      report := Some(r);
    }

    method Flush() returns (report: Option<Report>, ghost k: nat)
      modifies this, queue, sender
      ensures (State(), report) == Called(old(State()), FlushOnce, k)
    {
      k := 0;
      if !running {
        return None, k;
      }
      var r;
      r, k := FlushAfterEnqueue(None);
      report := Some(r);
    }
  }

  // ---- conservation over every run ----------------------------------------------------------

  /** What an observer of the calls has counted. */
  datatype Tally = Tally(accepted: seq<Payload>, refused: nat, sent: nat, stranded: nat, failures: nat,
                         lastError: Option<TakError>)

  const NO_TALLY := Tally([], 0, 0, 0, 0, None)

  /** Counts one call from its arguments, its report, and how many payloads the sender delivered during it. */
  function Counted(t: Tally, op: Op, report: Option<Report>, deliveredNow: nat): Tally {
    if report.None? then t
    else
      var error := report.value.error;
      var t1 := if op.Enqueue? && op.built.Some? && report.value.enqueued
                then t.(accepted := t.accepted + [op.built.value]) else t;
      var t2 := if error == Some(QueueFull) then t1.(refused := t1.refused + 1) else t1;
      var t3 := if error.Some? then t2.(failures := t2.failures + 1, stranded := t2.stranded + deliveredNow) else t2;
      t3.(sent := t3.sent + report.value.sent, lastError := error)
  }

  datatype Call = Call(op: Op, k: nat)

  function After(s: Service, calls: seq<Call>): Service
    decreases |calls|
  {
    if calls == [] then s else After(Called(s, calls[0].op, calls[0].k).0, calls[1..])
  }

  function TallyAfter(s: Service, t: Tally, calls: seq<Call>): Tally
    decreases |calls|
  {
    if calls == [] then t
    else
      var (next, report) := Called(s, calls[0].op, calls[0].k);
      TallyAfter(next, Counted(t, calls[0].op, report, |next.delivered| - |s.delivered|), calls[1..])
  }

  /**
   * Nothing is lost, duplicated or reordered; the counters say what happened; what `total_sent`
   * misses is exactly what drains delivered before they failed; the error is that of the last report.
   */
  ghost predicate Conserved(s: Service, t: Tally) {
    && t.accepted == s.delivered + s.pending
    && |s.pending| <= s.capacity
    && s.enqueued == Saturated(|t.accepted|)
    && s.droppedFull == Saturated(t.refused)
    && s.totalSent == Saturated(t.sent)
    && s.totalFailed == Saturated(t.failures)
    && |s.delivered| == t.sent + t.stranded
    && s.lastError == t.lastError
  }

  lemma DrainConserves(s: Service, k: nat)
    ensures Drained(s, k).delivered + Drained(s, k).pending == s.delivered + s.pending
    ensures |Drained(s, k).delivered| == |s.delivered| + Min(k, |s.pending|)
  {
    var n := Min(k, |s.pending|);
    assert s.pending == s.pending[..n] + s.pending[n..];
    Assoc(s.delivered, s.pending[..n], s.pending[n..]);
  }

  lemma CallConserves(s: Service, t: Tally, op: Op, k: nat)
    requires Conserved(s, t)
    ensures var (next, report) := Called(s, op, k);
            && |next.delivered| >= |s.delivered|
            && Conserved(next, Counted(t, op, report, |next.delivered| - |s.delivered|))
  {
    hide *;
    if op.Enqueue? && op.built.Some? && s.running {
      PushConserves(s, t, op.built.value, k);
    } else if op == FlushOnce && s.running {
      FlushConserves(s, t, k);
    } else if op == Enqueue(None) && s.running {
      BuildFailureConserves(s, t, k);
    } else {
      IdleCallConserves(s, t, op, k);
    }
  }

  lemma IdleCallConserves(s: Service, t: Tally, op: Op, k: nat)
    requires Conserved(s, t) && (op.Start? || op.Stop? || !s.running)
    ensures var (next, report) := Called(s, op, k);
            && |next.delivered| >= |s.delivered|
            && Conserved(next, Counted(t, op, report, |next.delivered| - |s.delivered|))
  {
    hide Pushed, Flushed, Saturated;
  }

  lemma BuildFailureConserves(s: Service, t: Tally, k: nat)
    requires Conserved(s, t) && s.running
    ensures var (next, report) := Called(s, Enqueue(None), k);
            && |next.delivered| >= |s.delivered|
            && Conserved(next, Counted(t, Enqueue(None), report, |next.delivered| - |s.delivered|))
  {
    hide Drained, Pushed;
  }

  lemma FlushConserves(s: Service, t: Tally, k: nat)
    requires Conserved(s, t) && s.running
    ensures var (next, report) := Called(s, FlushOnce, k);
            && |next.delivered| >= |s.delivered|
            && Conserved(next, Counted(t, FlushOnce, report, |next.delivered| - |s.delivered|))
  {
    DrainConserves(s, k);
    hide Pushed;
  }

  lemma PushConserves(s: Service, t: Tally, p: Payload, k: nat)
    requires Conserved(s, t) && s.running
    ensures var op := Enqueue(Some(p));
            var (next, report) := Called(s, op, k);
            && |next.delivered| >= |s.delivered|
            && Conserved(next, Counted(t, op, report, |next.delivered| - |s.delivered|))
  {
    if |s.pending| < s.capacity {
      DrainConserves(Pushed(s, p).0, k);
      Assoc(s.delivered, s.pending, [p]);
      hide Drained;
    }
  }

  lemma {:induction false} RunConserves(s: Service, t: Tally, calls: seq<Call>)
    requires Conserved(s, t)
    ensures Conserved(After(s, calls), TallyAfter(s, t, calls))
    decreases |calls|
  {
    hide Called, Conserved, Counted;
    if calls != [] {
      CallConserves(s, t, calls[0].op, calls[0].k);
      var (next, report) := Called(s, calls[0].op, calls[0].k);
      RunConserves(next, Counted(t, calls[0].op, report, |next.delivered| - |s.delivered|), calls[1..]);
    }
  }

  /** Conservation from a new service, for any sender and any calls. */
  lemma ServiceConserves(capacity: nat, calls: seq<Call>)
    ensures Conserved(After(NewService(capacity, []), calls), TallyAfter(NewService(capacity, []), NO_TALLY, calls))
  {
    RunConserves(NewService(capacity, []), NO_TALLY, calls);
  }

  /**
   * An enqueue is refused exactly when the queue is full, and then nothing moves; otherwise the payload joins
   * the queue's end and the drain takes what it can, all of it exactly when the report has no error.
   */
  lemma EnqueueSays(s: Service, p: Payload, k: nat)
    requires s.running && |s.pending| <= s.capacity
    ensures var (next, report) := Called(s, Enqueue(Some(p)), k);
            && report.Some?
            && (report.value.error == Some(QueueFull) <==> |s.pending| == s.capacity)
            && if |s.pending| == s.capacity then
                 next.pending == s.pending && next.delivered == s.delivered && !report.value.enqueued
               else
                 && report.value.enqueued
                 && next.delivered + next.pending == s.delivered + s.pending + [p]
                 && |next.pending| == Max(|s.pending| + 1 - k, 0)
                 && report.value.error == if next.pending == [] then None else Some(SendFailed)
  {
    DrainConserves(Pushed(s, p).0, k);
    Assoc(s.delivered, s.pending, [p]);
    hide Saturated;
  }

  /** A flush sends from the front of the queue, all of it exactly when the report has no error. */
  lemma FlushSays(s: Service, k: nat)
    requires s.running
    ensures var (next, report) := Called(s, FlushOnce, k);
            && report.Some?
            && next.delivered + next.pending == s.delivered + s.pending
            && |next.pending| == Max(|s.pending| - k, 0)
            && report.value.error == if next.pending == [] then None else Some(SendFailed)
  {
    DrainConserves(s, k);
    hide Saturated;
  }

  // ---- backoff ---------------------------------------------------------------------------------

  const MAX_BACKOFF: nat := 30_000_000_000

  /** `tak_worker_interval_after_report`. */
  function IntervalAfterReport(current: nat, base: nat, report: Report): nat {
    if report.error.Some? then Min(Min(current * 2, DURATION_MAX), MAX_BACKOFF) else base
  }

  /** The interval after a list of reports, the last one last. */
  function IntervalAfter(base: nat, reports: seq<Report>): nat {
    if reports == [] then base
    else IntervalAfterReport(IntervalAfter(base, reports[..|reports| - 1]), base, reports[|reports| - 1])
  }

  /** How many reports have failed in a row, up to now. */
  function FailuresInARow(reports: seq<Report>): nat {
    if reports == [] || reports[|reports| - 1].error.None? then 0
    else 1 + FailuresInARow(reports[..|reports| - 1])
  }

  function Pow2(n: nat): (p: nat)
    ensures p >= 1
  {
    if n == 0 then 1 else 2 * Pow2(n - 1)
  }

  lemma DoubledPower(base: nat, n: nat)
    ensures base * Pow2(n + 1) == 2 * (base * Pow2(n)) && base * Pow2(0) == base
  {
  }

  /** The interval doubles with every failure in a row up to 30 seconds and starts over after a success. */
  lemma {:induction false} BackoffIsExponential(base: nat, reports: seq<Report>)
    ensures var n := FailuresInARow(reports);
            IntervalAfter(base, reports) == if n == 0 then base else Min(base * Pow2(n), 30_000_000_000)
  {
    if reports != [] {
      var earlier := reports[..|reports| - 1];
      BackoffIsExponential(base, earlier);
      if reports[|reports| - 1].error.Some? {
        var n := FailuresInARow(earlier);
        DoubledPower(base, n);
        assert FailuresInARow(reports) == n + 1;
        hide FailuresInARow, Pow2;
      }
    }
  }

  /** It always stays between the base and 30 seconds, whichever is smaller. */
  lemma BackoffIsBounded(base: nat, reports: seq<Report>)
    ensures Min(base, 30_000_000_000) <= IntervalAfter(base, reports) <= Max(base, 30_000_000_000)
  {
    BackoffIsExponential(base, reports);
    var n := FailuresInARow(reports);
    assert base * Pow2(n) >= base;
  }

  // ---- the worker loop ------------------------------------------------------------------------------

  datatype Worker = Worker(lastPing: Option<nat>, lastKeepalive: Option<nat>, interval: nat)

  function Due(last: Option<nat>, now: nat, every: nat): bool {
    last.None? || Max(now - last.value, 0) >= every
  }

  /** Where a pass stands: the service, the worker, and the reports so far, oldest first. */
  datatype Progress = Progress(service: Service, worker: Worker, reports: seq<Report>)

  predicate HasFailed(reports: seq<Report>) { reports != [] && reports[|reports| - 1].error.Some? }

  /** Takes up a call's outcome. */
  function Noted(p: Progress, base: nat, called: (Service, Option<Report>)): Progress {
    match called.1
    case None => p.(service := called.0)
    case Some(r) =>
      Progress(called.0, p.worker.(interval := IntervalAfterReport(p.worker.interval, base, r)), p.reports + [r])
  }

  function FlushPhase(p: Progress, base: nat, k: nat): Progress {
    if p.service.running && p.service.pending != [] then Noted(p, base, Called(p.service, FlushOnce, k)) else p
  }

  function PingPhase(p: Progress, base: nat, every: nat, now: nat, ping: Payload, k: nat): Progress {
    if p.service.running && !HasFailed(p.reports) && Due(p.worker.lastPing, now, every) then
      var q := Noted(p, base, Called(p.service, Enqueue(Some(ping)), k));
      q.(worker := q.worker.(lastPing := Some(now)))
    else p
  }

  function KeepalivePhase(p: Progress, base: nat, every: nat, now: nat, keepalive: Payload, k: nat): Progress {
    if p.service.running && !HasFailed(p.reports) && Due(p.worker.lastKeepalive, now, every) then
      var q := Noted(p, base, Called(p.service, Enqueue(Some(keepalive)), k));
      q.(worker := q.worker.(lastKeepalive := Some(now)))
    else p
  }

  /** One pass under the lock; the oracle says how far each drain gets. */
  function Pass(s: Service, w: Worker, base: nat, every: nat, now: nat, ping: Payload, keepalive: Payload,
                ks: (nat, nat, nat)): Progress
  {
    var p1 := FlushPhase(Progress(s, w, []), base, ks.0);
    var p2 := PingPhase(p1, base, every, now, ping, ks.1);
    KeepalivePhase(p2, base, every, now, keepalive, ks.2)
  }

  class TakServiceWorker {
    const service: TakService
    const base: nat
    const every: nat
    var lastPing: Option<nat>
    var lastKeepalive: Option<nat>
    var currentInterval: nat

    /** Starts the service; the retry interval is at least a millisecond. */
    constructor (service: TakService, retryInterval: nat, keepaliveInterval: nat)
      modifies service`running
      ensures this.service == service && base == Max(retryInterval, 1_000_000) && every == keepaliveInterval
      ensures service.State() == Called(old(service.State()), Start, 0).0
      ensures State() == Worker(None, None, base)
    {
      this.service := service;
      base, every := Max(retryInterval, 1_000_000), keepaliveInterval;
      lastPing, lastKeepalive, currentInterval := None, None, Max(retryInterval, 1_000_000);
      new;
      service.SetRunning(true);
    }

    function State(): Worker
      reads this
    {
      Worker(lastPing, lastKeepalive, currentInterval)
    }

    method Iterate(now: nat, ping: Payload, keepalive: Payload)
      returns (reports: seq<Report>, ghost ks: (nat, nat, nat))
      modifies this, service, service.queue, service.sender
      ensures Progress(service.State(), State(), reports)
              == Pass(old(service.State()), old(State()), base, every, now, ping, keepalive, ks)
    {
      hide Called, Due;
      reports, ks := [], (0, 0, 0);
      ghost var k0, k1, k2 := 0, 0, 0;
      ghost var p0 := Progress(service.State(), State(), []);
      var sendFailed := false;
      if service.running && service.queue.pending != [] {
        var report;
        report, k0 := service.Flush();
        if report.Some? {
          currentInterval := IntervalAfterReport(currentInterval, base, report.value);
          sendFailed := report.value.error.Some?;
          reports := reports + [report.value];
        }
      }
      ghost var p1 := FlushPhase(p0, base, k0);
      assert Progress(service.State(), State(), reports) == p1 && sendFailed == HasFailed(reports);
      if service.running && !sendFailed {
        if Due(lastPing, now, every) {
          var report;
          report, k1 := service.EnqueuePayload(Some(ping));
          if report.Some? {
            currentInterval := IntervalAfterReport(currentInterval, base, report.value);
            sendFailed := report.value.error.Some?;
            reports := reports + [report.value];
          }
          lastPing := Some(now);
        }
        CallKeepsRunning(p1.service, ping, k1);
        assert Progress(service.State(), State(), reports) == PingPhase(p1, base, every, now, ping, k1);
        assert sendFailed == HasFailed(reports);
        if !sendFailed && Due(lastKeepalive, now, every) {
          var report;
          report, k2 := service.EnqueuePayload(Some(keepalive));
          if report.Some? {
            currentInterval := IntervalAfterReport(currentInterval, base, report.value);
            reports := reports + [report.value];
          }
          lastKeepalive := Some(now);
        }
      }
      ks := (k0, k1, k2);
    }
  }

  lemma CallKeepsRunning(s: Service, p: Payload, k: nat)
    ensures Called(s, Enqueue(Some(p)), k).0.running == s.running
  {
  }

  /** The only thing that can fail in a pass is a send, and then nothing follows it. */
  ghost predicate OnlyALastSendFails(reports: seq<Report>) {
    forall i | 0 <= i < |reports| :: reports[i].error.None? || (reports[i].error == Some(SendFailed) && i == |reports| - 1)
  }

  /** What holds between the phases of a pass. */
  ghost predicate InOrder(p: Progress, base: nat, earlier: seq<Report>) {
    && p.service.capacity >= 1
    && OnlyALastSendFails(p.reports)
    && p.worker.interval == IntervalAfter(base, earlier + p.reports)
    && (p.service.running && !HasFailed(p.reports) ==> p.service.pending == [])
  }

  /** A call that drains: from an empty queue, or a flush. */
  lemma DrainingCall(s: Service, op: Op, k: nat)
    requires s.running && s.capacity >= 1
    requires op == FlushOnce || (op.Enqueue? && op.built.Some? && s.pending == [])
    ensures var (t, report) := Called(s, op, k);
            && report.Some? && t.running && t.capacity == s.capacity
            && (report.value.error.None? || report.value.error == Some(SendFailed))
            && (report.value.error.None? ==> t.pending == [])
  {
  }

  lemma NotedInOrder(p: Progress, base: nat, op: Op, k: nat, earlier: seq<Report>)
    requires p.service.running && p.service.capacity >= 1 && OnlyALastSendFails(p.reports) && !HasFailed(p.reports)
    requires p.worker.interval == IntervalAfter(base, earlier + p.reports)
    requires op == FlushOnce || (op.Enqueue? && op.built.Some? && p.service.pending == [])
    ensures InOrder(Noted(p, base, Called(p.service, op, k)), base, earlier)
  {
    hide Called, IntervalAfterReport, IntervalAfter, OnlyALastSendFails;
    DrainingCall(p.service, op, k);
    var r := Called(p.service, op, k).1.value;
    OneMoreReport(base, earlier + p.reports, r);
    OneMoreAtTheEnd(p.reports, r);
    Assoc(earlier, p.reports, [r]);
  }

  lemma OneMoreReport(base: nat, reports: seq<Report>, r: Report)
    ensures IntervalAfter(base, reports + [r]) == IntervalAfterReport(IntervalAfter(base, reports), base, r)
  {
    assert (reports + [r])[..|reports|] == reports;
  }

  lemma OneMoreAtTheEnd(reports: seq<Report>, r: Report)
    requires OnlyALastSendFails(reports) && !HasFailed(reports)
    requires r.error.None? || r.error == Some(SendFailed)
    ensures OnlyALastSendFails(reports + [r])
  {
  }

  /**
   * Whatever the state of the service, one pass has at most one failing report, always its last,
   * and never finds the queue full; and the interval follows the reports.
   */
  lemma PassFailsAtMostOnce(s: Service, w: Worker, base: nat, every: nat, now: nat, ping: Payload, keepalive: Payload,
                            ks: (nat, nat, nat), earlier: seq<Report>)
    requires s.capacity >= 1 && w.interval == IntervalAfter(base, earlier)
    ensures InOrder(Pass(s, w, base, every, now, ping, keepalive, ks), base, earlier)
  {
    hide Called, Due, Noted;
    assert earlier + [] == earlier;
    var p0 := Progress(s, w, []);
    if s.running { NotedInOrder(p0, base, FlushOnce, ks.0, earlier); }
    var p1 := FlushPhase(p0, base, ks.0);
    if p1.service.running && !HasFailed(p1.reports) {
      NotedInOrder(p1, base, Enqueue(Some(ping)), ks.1, earlier);
    }
    var p2 := PingPhase(p1, base, every, now, ping, ks.1);
    if p2.service.running && !HasFailed(p2.reports) {
      NotedInOrder(p2, base, Enqueue(Some(keepalive)), ks.2, earlier);
    }
  }

  /**
   * What one pass does, with all its conditions: it flushes, then queues a ping and then a keepalive, each when it
   * is due and nothing has failed before; what it queued stands last, and it remembers when it queued it.
   */
  lemma PassQueues(s: Service, w: Worker, base: nat, every: nat, now: nat, ping: Payload, keepalive: Payload,
                   ks: (nat, nat, nat))
    requires s.capacity >= 1
    ensures var end := Pass(s, w, base, every, now, ping, keepalive, ks);
            var pings := s.running && ks.0 >= |s.pending| && IsDue(w.lastPing, now, every);
            var keeps := s.running && ks.0 >= |s.pending| && (pings ==> ks.1 >= 1) && IsDue(w.lastKeepalive, now, every);
            && end.service.delivered + end.service.pending
               == s.delivered + s.pending + (if pings then [ping] else []) + (if keeps then [keepalive] else [])
            && end.worker.lastPing == (if pings then Some(now) else w.lastPing)
            && end.worker.lastKeepalive == (if keeps then Some(now) else w.lastKeepalive)
  {
    hide *;
    var p1 := FlushPhase(Progress(s, w, []), base, ks.0);
    AfterFlush(s, w, base, ks.0);
    AfterPing(p1, base, every, now, ping, ks.1);
    AfterKeepalive(PingPhase(p1, base, every, now, ping, ks.1), base, every, now, keepalive, ks.2);
    PassPhases(s, w, base, every, now, ping, keepalive, ks);
    var all := s.delivered + s.pending;
    assert all + [] == all && all + [ping] + [] == all + [ping];
  }

  lemma PassPhases(s: Service, w: Worker, base: nat, every: nat, now: nat, ping: Payload, keepalive: Payload,
                   ks: (nat, nat, nat))
    ensures Pass(s, w, base, every, now, ping, keepalive, ks)
            == KeepalivePhase(PingPhase(FlushPhase(Progress(s, w, []), base, ks.0), base, every, now, ping, ks.1),
                              base, every, now, keepalive, ks.2)
  {
  }

  /** Never done, or at least `every` ago; a clock behind the last time counts as no time. */
  predicate IsDue(last: Option<nat>, now: nat, every: nat) {
    last == None || now >= last.value + every || every == 0
  }

  /** Between the phases: all is sent unless the last report failed. */
  ghost predicate Ready(p: Progress) {
    p.service.capacity >= 1 && (p.service.running && !HasFailed(p.reports) ==> p.service.pending == [])
  }

  lemma AfterFlush(s: Service, w: Worker, base: nat, k: nat)
    requires s.capacity >= 1
    ensures var p := FlushPhase(Progress(s, w, []), base, k);
            && Ready(p) && p.service.running == s.running
            && p.service.delivered + p.service.pending == s.delivered + s.pending
            && (s.running ==> (HasFailed(p.reports) <==> k < |s.pending|))
            && p.worker.lastPing == w.lastPing && p.worker.lastKeepalive == w.lastKeepalive
  {
    if s.running {
      FlushSays(s, k);
      DrainingCall(s, FlushOnce, k);
      hide Called;
    }
  }

  lemma QueueOne(p: Progress, base: nat, payload: Payload, k: nat)
    requires Ready(p) && p.service.running && !HasFailed(p.reports)
    ensures var q := Noted(p, base, Called(p.service, Enqueue(Some(payload)), k));
            && Ready(q) && q.service.running
            && q.service.delivered + q.service.pending == p.service.delivered + p.service.pending + [payload]
            && (HasFailed(q.reports) <==> k < 1)
            && q.worker.lastPing == p.worker.lastPing && q.worker.lastKeepalive == p.worker.lastKeepalive
  {
    EnqueueSays(p.service, payload, k);
    DrainingCall(p.service, Enqueue(Some(payload)), k);
    hide Called;
  }

  lemma AfterPing(p: Progress, base: nat, every: nat, now: nat, ping: Payload, k: nat)
    requires Ready(p)
    ensures var q := PingPhase(p, base, every, now, ping, k);
            var pings := p.service.running && !HasFailed(p.reports) && IsDue(p.worker.lastPing, now, every);
            && Ready(q) && q.service.running == p.service.running
            && q.service.delivered + q.service.pending
               == p.service.delivered + p.service.pending + (if pings then [ping] else [])
            && (HasFailed(q.reports) <==> HasFailed(p.reports) || (pings && k < 1))
            && q.worker.lastPing == (if pings then Some(now) else p.worker.lastPing)
            && q.worker.lastKeepalive == p.worker.lastKeepalive
  {
    hide Noted, Called;
    if p.service.running && !HasFailed(p.reports) { QueueOne(p, base, ping, k); }
    assert p.service.delivered + p.service.pending + [] == p.service.delivered + p.service.pending;
  }

  lemma AfterKeepalive(p: Progress, base: nat, every: nat, now: nat, keepalive: Payload, k: nat)
    requires Ready(p)
    ensures var q := KeepalivePhase(p, base, every, now, keepalive, k);
            var keeps := p.service.running && !HasFailed(p.reports) && IsDue(p.worker.lastKeepalive, now, every);
            && q.service.delivered + q.service.pending
               == p.service.delivered + p.service.pending + (if keeps then [keepalive] else [])
            && q.worker.lastPing == p.worker.lastPing
            && q.worker.lastKeepalive == (if keeps then Some(now) else p.worker.lastKeepalive)
  {
    hide Noted, Called;
    if p.service.running && !HasFailed(p.reports) { QueueOne(p, base, keepalive, k); }
    assert p.service.delivered + p.service.pending + [] == p.service.delivered + p.service.pending;
  }

  // ---- the worker among other callers ----------------------------------------------------------------------

  /** Other threads call the service between the worker's passes; each step holds the lock. */
  datatype SystemStep =
    | External(call: Call)
    | Iteration(now: nat, ping: Payload, keepalive: Payload, ks: (nat, nat, nat))

  /** The service, the worker and all the worker's reports after a run. */
  function System(p: Progress, base: nat, every: nat, steps: seq<SystemStep>): Progress
    decreases |steps|
  {
    if steps == [] then p
    else match steps[0] {
      case External(call) =>
        System(p.(service := Called(p.service, call.op, call.k).0), base, every, steps[1..])
      case Iteration(now, ping, keepalive, ks) =>
        var q := Pass(p.service, p.worker, base, every, now, ping, keepalive, ks);
        System(q.(reports := p.reports + q.reports), base, every, steps[1..])
    }
  }

  lemma AfterConcat(s: Service, a: seq<Call>, b: seq<Call>)
    ensures After(s, a + b) == After(After(s, a), b)
    decreases |a|
  {
    hide Called;
    if a == [] {
      assert a + b == b;
    } else {
      assert (a + b)[1..] == a[1..] + b;
      AfterConcat(Called(s, a[0].op, a[0].k).0, a[1..], b);
    }
  }

  lemma AfterOne(s: Service, op: Op, k: nat)
    ensures After(s, [Call(op, k)]) == Called(s, op, k).0
  {
    hide Called;
    assert After(Called(s, op, k).0, [Call(op, k)][1..]) == Called(s, op, k).0;
  }

  /** To the service a pass is a few calls like any others. */
  lemma PassIsCalls(s: Service, w: Worker, base: nat, every: nat, now: nat, ping: Payload, keepalive: Payload,
                    ks: (nat, nat, nat)) returns (calls: seq<Call>)
    ensures Pass(s, w, base, every, now, ping, keepalive, ks).service == After(s, calls)
  {
    hide Called, Due, After;
    NoCalls(s);
    calls := [];
    var p1 := FlushPhase(Progress(s, w, []), base, ks.0);
    if s.running && s.pending != [] {
      calls := OneMoreCall(s, calls, FlushOnce, ks.0);
    }
    var p2 := PingPhase(p1, base, every, now, ping, ks.1);
    if p2 != p1 {
      calls := OneMoreCall(s, calls, Enqueue(Some(ping)), ks.1);
    }
    if KeepalivePhase(p2, base, every, now, keepalive, ks.2) != p2 {
      calls := OneMoreCall(s, calls, Enqueue(Some(keepalive)), ks.2);
    }
  }

  lemma NoCalls(s: Service)
    ensures After(s, []) == s
  {
  }

  lemma OneMoreCall(s: Service, calls: seq<Call>, op: Op, k: nat) returns (more: seq<Call>)
    ensures After(s, more) == Called(After(s, calls), op, k).0
  {
    more := calls + [Call(op, k)];
    AfterConcat(s, calls, [Call(op, k)]);
    AfterOne(After(s, calls), op, k);
  }

  /**
   * In every interleaving of the worker with other callers: the service is one that some list of
   * calls produces, so conservation holds of it; and the worker sleeps for the interval that its own
   * reports determine, however other callers' sends went.
   */
  lemma {:induction false} WorkerAmongCallers(p: Progress, base: nat, every: nat, steps: seq<SystemStep>)
    returns (calls: seq<Call>)
    requires p.service.capacity >= 1 && p.worker.interval == IntervalAfter(base, p.reports)
    ensures var end := System(p, base, every, steps);
            && end.service == After(p.service, calls)
            && end.service.capacity == p.service.capacity
            && end.worker.interval == IntervalAfter(base, end.reports)
            && Min(base, 30_000_000_000) <= end.worker.interval <= Max(base, 30_000_000_000)
    decreases |steps|
  {
    hide Called, Pass, After;
    if steps == [] {
      NoCalls(p.service);
      BackoffIsBounded(base, p.reports);
      return [];
    }
    var first: seq<Call>, next: Progress;
    match steps[0] {
      case External(call) =>
        NoCalls(p.service);
        first := OneMoreCall(p.service, [], call.op, call.k);
        next := p.(service := Called(p.service, call.op, call.k).0);
      case Iteration(now, ping, keepalive, ks) =>
        first := PassIsCalls(p.service, p.worker, base, every, now, ping, keepalive, ks);
        PassFailsAtMostOnce(p.service, p.worker, base, every, now, ping, keepalive, ks, p.reports);
        var q := Pass(p.service, p.worker, base, every, now, ping, keepalive, ks);
        next := q.(reports := p.reports + q.reports);
    }
    CallsKeepCapacity(p.service, first);
    var rest := WorkerAmongCallers(next, base, every, steps[1..]);
    calls := first + rest;
    AfterConcat(p.service, first, rest);
  }

  lemma {:induction false} CallsKeepCapacity(s: Service, calls: seq<Call>)
    ensures After(s, calls).capacity == s.capacity
    decreases |calls|
  {
    if calls != [] {
      CallsKeepCapacity(Called(s, calls[0].op, calls[0].k).0, calls[1..]);
    }
  }
}
