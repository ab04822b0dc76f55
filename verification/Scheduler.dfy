/**
 * The two-lane receiver of the ZeroMQ data plane (`recv_prioritized_actor_request`)
 * among producers: send requests first, a control request after 32 sends in a row.
 * Every channel operation of the receiver is one step, and producers may push or
 * disconnect between any two of them.
 */
module Scheduler {
  import opened Wrappers

  const BURST: nat := 32

  datatype Request = Request(id: nat)

  datatype LaneName = SendLane | ControlLane

  /** A channel: what is queued, and whether a sender is still connected. */
  datatype Lane = Lane(queue: seq<Request>, open: bool)

  /** The channel operation the receiver performs next. */
  datatype Point =
    | Top          // the start of the loop, also between two calls
    | TrySend      // `send_receiver.try_recv`
    | TryControl   // `control_receiver.try_recv`
    | WaitSend     // `send_receiver.recv_timeout`
    | RecvControl  // `control_receiver.recv`, after the send lane disconnected
    | RecvSend     // `send_receiver.recv`, after the control lane disconnected

  datatype State = State(send: Lane, control: Lane, burst: nat, point: Point)

  /** What one operation yields to the caller. */
  datatype Event = Quiet | Served(lane: LaneName, request: Request) | Ended

  // ---- one operation -------------------------------------------------------------------

  function TakeSend(s: State, countsAsBurst: bool): (State, Event)
    requires s.send.queue != []
  {
    (s.(send := s.send.(queue := s.send.queue[1..]), burst := if countsAsBurst then Saturated(s.burst + 1) else s.burst, point := Top),
     Served(SendLane, s.send.queue[0]))
  }

  function TakeControl(s: State, endsBurst: bool): (State, Event)
    requires s.control.queue != []
  {
    (s.(control := s.control.(queue := s.control.queue[1..]), burst := if endsBurst then 0 else s.burst, point := Top),
     Served(ControlLane, s.control.queue[0]))
  }

  function TrySendNow(s: State): (State, Event) {
    if s.send.queue != [] then TakeSend(s, true)
    else (s.(point := if s.send.open then TryControl else RecvControl), Quiet)
  }

  /** The receiver's next channel operation. A blocking receive on an empty open lane stays where it is. */
  function Poll(s: State): (State, Event) {
    match s.point
    case Top =>
      if s.burst < BURST then TrySendNow(s)
      else if s.control.queue != [] then TakeControl(s, true)
      else (s.(point := TrySend), Quiet)
    case TrySend => TrySendNow(s)
    case TryControl =>
      if s.control.queue != [] then TakeControl(s, true)
      else (s.(point := if s.control.open then WaitSend else RecvSend), Quiet)
    case WaitSend =>
      if s.send.queue != [] then TakeSend(s, true)
      else (s.(point := if s.send.open then Top else RecvControl), Quiet)
    case RecvControl =>
      if s.control.queue != [] then TakeControl(s, false)
      else if s.control.open then (s, Quiet) else (s.(point := Top), Ended)
    case RecvSend =>
      if s.send.queue != [] then TakeSend(s, false)
      else if s.send.open then (s, Quiet) else (s.(point := Top), Ended)
  }

  datatype Action = Push(lane: LaneName, request: Request) | Close(lane: LaneName)

  function Get(s: State, name: LaneName): Lane { if name == SendLane then s.send else s.control }

  function Put(s: State, name: LaneName, lane: Lane): State {
    if name == SendLane then s.(send := lane) else s.(control := lane)
  }

  /** A producer's step; nothing can be pushed into a lane without senders. */
  function Produce(s: State, a: Action): State {
    var lane := Get(s, a.lane);
    match a
    case Push(name, r) => if lane.open then Put(s, name, lane.(queue := lane.queue + [r])) else s
    case Close(name) => Put(s, name, lane.(open := false))
  }

  // ---- the loop, with producers between its operations -----------------------------------------

  function ProduceAll(s: State, actions: seq<Action>): State
    decreases |actions|
  {
    if actions == [] then s else ProduceAll(Produce(s, actions[0]), actions[1..])
  }

  /** A call: before each operation the producers do one batch of `script`; it is cut off when the script is. */
  function Received(s: State, script: seq<seq<Action>>): (State, Event)
    decreases |script|
  {
    if script == [] then (s, Quiet)
    else
      var (next, event) := Poll(ProduceAll(s, script[0]));
      if event == Quiet then Received(next, script[1..]) else (next, event)
  }

  class Receiver {
    var send: Lane
    var control: Lane
    var sendBurst: nat

    function At(point: Point): State
      reads this
    {
      State(send, control, sendBurst, point)
    }

    /** Producers run: the next batch of the script. */
    method Interfere(actions: seq<Action>)
      modifies this`send, this`control
      ensures forall p :: At(p) == ProduceAll(old(At(p)), actions)
    {
      hide Produce;
      var i := 0;
      while i < |actions|
        invariant 0 <= i <= |actions|
        invariant sendBurst == old(sendBurst)
        invariant forall p :: ProduceAll(At(p), actions[i..]) == ProduceAll(old(At(p)), actions)
      {
        var next := Produce(At(Top), actions[i]);
        ProduceKeepsBurst(At(Top), actions[i]);
        forall p ensures ProduceAll(next.(point := p), actions[i + 1..]) == ProduceAll(old(At(p)), actions) {
          ProduceKeepsPoint(At(Top), p, actions[i]);
          assert ProduceAll(At(p), actions[i..]) == ProduceAll(next.(point := p), actions[i..][1..]);
        }
        send, control := next.send, next.control;
        assert forall p :: At(p) == next.(point := p);
        i := i + 1;
      }
    }

    method RecvPrioritizedActorRequest(script: seq<seq<Action>>) returns (event: Event, ghost last: Point)
      modifies this
      ensures (At(last), event) == Received(old(At(Top)), script)
    {
      hide ProduceAll;
      var rest := script;
      last := Top;
      while rest != []
        invariant Received(At(Top), rest) == Received(old(At(Top)), script)
        invariant last == Top
        decreases |rest|
      {
        Interfere(rest[0]);
        rest := rest[1..];
        if sendBurst >= BURST {
          if control.queue != [] {
            var request := control.queue[0];
            control := control.(queue := control.queue[1..]);
            sendBurst := 0;
            return Served(ControlLane, request), Top;
          }
          assert Received(At(TrySend), rest) == Received(old(At(Top)), script);
          if rest == [] { return Quiet, TrySend; }
          Interfere(rest[0]);
          rest := rest[1..];
        }
        if send.queue != [] {
          var request := send.queue[0];
          send := send.(queue := send.queue[1..]);
          sendBurst := Saturated(sendBurst + 1);
          return Served(SendLane, request), Top;
        } else if !send.open {
          event, last := BlockOnControl(rest);
          return;
        }
        assert Received(At(TryControl), rest) == Received(old(At(Top)), script);
        if rest == [] { return Quiet, TryControl; }
        Interfere(rest[0]);
        rest := rest[1..];
        if control.queue != [] {
          var request := control.queue[0];
          control := control.(queue := control.queue[1..]);
          sendBurst := 0;
          return Served(ControlLane, request), Top;
        } else if !control.open {
          event, last := BlockOnSend(rest);
          return;
        }
        assert Received(At(WaitSend), rest) == Received(old(At(Top)), script);
        if rest == [] { return Quiet, WaitSend; }
        Interfere(rest[0]);
        rest := rest[1..];
        if send.queue != [] {
          var request := send.queue[0];
          send := send.(queue := send.queue[1..]);
          sendBurst := Saturated(sendBurst + 1);
          return Served(SendLane, request), Top;
        } else if !send.open {
          event, last := BlockOnControl(rest);
          return;
        }
      }
      event := Quiet;
    }

    method BlockOnControl(script: seq<seq<Action>>) returns (event: Event, ghost last: Point)
      modifies this
      ensures (At(last), event) == Received(old(At(RecvControl)), script)
    {
      hide ProduceAll;
      var i := 0;
      while i < |script|
        invariant 0 <= i <= |script|
        invariant Received(At(RecvControl), script[i..]) == Received(old(At(RecvControl)), script)
      {
        Interfere(script[i]);
        if control.queue != [] {
          var request := control.queue[0];
          control := control.(queue := control.queue[1..]);
          return Served(ControlLane, request), Top;
        } else if !control.open {
          return Ended, Top;
        }
        i := i + 1;
      }
      return Quiet, RecvControl;
    }

    method BlockOnSend(script: seq<seq<Action>>) returns (event: Event, ghost last: Point)
      modifies this
      ensures (At(last), event) == Received(old(At(RecvSend)), script)
    {
      hide ProduceAll;
      var i := 0;
      while i < |script|
        invariant 0 <= i <= |script|
        invariant Received(At(RecvSend), script[i..]) == Received(old(At(RecvSend)), script)
      {
        Interfere(script[i]);
        if send.queue != [] {
          var request := send.queue[0];
          send := send.(queue := send.queue[1..]);
          return Served(SendLane, request), Top;
        } else if !send.open {
          return Ended, Top;
        }
        i := i + 1;
      }
      return Quiet, RecvSend;
    }
  }

  lemma ProduceKeepsPoint(s: State, p: Point, a: Action)
    ensures Produce(s.(point := p), a) == Produce(s, a).(point := p)
  {
  }

  lemma ProduceKeepsBurst(s: State, a: Action)
    ensures Produce(s, a).burst == s.burst
  {
  }

  // ---- runs -----------------------------------------------------------------------------------

  /** A step of the whole: a producer's, or the receiver's next operation. */
  datatype Step = Producer(action: Action) | Receive

  function Next(s: State, step: Step): (State, Event) {
    match step case Producer(a) => (Produce(s, a), Quiet) case Receive => Poll(s)
  }

  function End(s: State, steps: seq<Step>): State
    decreases |steps|
  {
    if steps == [] then s else End(Next(s, steps[0]).0, steps[1..])
  }

  function ServedNow(event: Event, lane: LaneName): seq<Request> {
    if event.Served? && event.lane == lane then [event.request] else []
  }

  /** The requests of a lane that a run serves, in order. */
  function ServedFrom(s: State, steps: seq<Step>, lane: LaneName): seq<Request>
    decreases |steps|
  {
    if steps == [] then []
    else
      var (next, event) := Next(s, steps[0]);
      ServedNow(event, lane) + ServedFrom(next, steps[1..], lane)
  }

  function AcceptedNow(s: State, step: Step, lane: LaneName): seq<Request> {
    if step.Producer? && step.action.Push? && step.action.lane == lane && Get(s, lane).open
    then [step.action.request] else []
  }

  /** The requests that a lane accepts during a run, in order. */
  function AcceptedBy(s: State, steps: seq<Step>, lane: LaneName): seq<Request>
    decreases |steps|
  {
    if steps == [] then []
    else AcceptedNow(s, steps[0], lane) + AcceptedBy(Next(s, steps[0]).0, steps[1..], lane)
  }

  // ---- nothing lost, nothing duplicated, in order -------------------------------------------------

  lemma StepIsFifo(s: State, step: Step, lane: LaneName)
    ensures var (next, event) := Next(s, step);
            ServedNow(event, lane) + Get(next, lane).queue == Get(s, lane).queue + AcceptedNow(s, step, lane)
  {
    match step {
      case Producer(a) => ProducingIsFifo(s, a, lane);
      case Receive => PollingIsFifo(s, lane);
    }
  }

  lemma ProducingIsFifo(s: State, a: Action, lane: LaneName)
    ensures Get(Produce(s, a), lane).queue == Get(s, lane).queue + AcceptedNow(s, Producer(a), lane)
  {
  }

  lemma PollingIsFifo(s: State, lane: LaneName)
    ensures ServedNow(Poll(s).1, lane) + Get(Poll(s).0, lane).queue == Get(s, lane).queue
  {
    var queue, served := Get(s, lane).queue, ServedNow(Poll(s).1, lane);
    PollTakesOne(s, lane);
    hide Poll, Get, ServedNow;
    assert queue != [] ==> [queue[0]] + queue[1..] == queue;
    assert [] + queue == queue;
  }

  /** An operation takes the first request of one lane, or nothing. */
  lemma PollTakesOne(s: State, lane: LaneName)
    ensures var queue, served := Get(s, lane).queue, ServedNow(Poll(s).1, lane);
            if served == [] then Get(Poll(s).0, lane).queue == queue
            else queue != [] && served == [queue[0]] && Get(Poll(s).0, lane).queue == queue[1..]
  {
    if lane == SendLane {
      assert s.send.queue == Get(s, lane).queue;
    } else {
      assert s.control.queue == Get(s, lane).queue;
    }
  }

  /** Each lane serves exactly what it held and accepted, first come first served. */
  lemma {:induction false} LanesAreFifo(s: State, steps: seq<Step>, lane: LaneName)
    ensures ServedFrom(s, steps, lane) + Get(End(s, steps), lane).queue
            == Get(s, lane).queue + AcceptedBy(s, steps, lane)
    decreases |steps|
  {
    hide Next, ServedNow, AcceptedNow, Get;
    if steps == [] {
      assert Get(s, lane).queue + [] == [] + Get(s, lane).queue;
    } else {
      var (next, event) := Next(s, steps[0]);
      var now, new1 := ServedNow(event, lane), AcceptedNow(s, steps[0], lane);
      var later, new2 := ServedFrom(next, steps[1..], lane), AcceptedBy(next, steps[1..], lane);
      StepIsFifo(s, steps[0], lane);
      LanesAreFifo(next, steps[1..], lane);
      Assoc(now, later, Get(End(s, steps), lane).queue);
      Assoc(now, Get(next, lane).queue, new2);
      Assoc(Get(s, lane).queue, new1, new2);
    }
  }

  /** What stands in front of a request in its lane is served before it, and it is served in its turn. */
  lemma ServedInTurn(s: State, steps: seq<Step>, lane: LaneName, i: nat)
    requires i < |Get(s, lane).queue|
    ensures var served := ServedFrom(s, steps, lane);
            && (|served| <= i ==> i - |served| < |Get(End(s, steps), lane).queue|
                                  && Get(End(s, steps), lane).queue[i - |served|] == Get(s, lane).queue[i])
            && (|served| > i ==> served[..i + 1] == Get(s, lane).queue[..i + 1])
  {
    hide Next, Get;
    LanesAreFifo(s, steps, lane);
    var served, left := ServedFrom(s, steps, lane), Get(End(s, steps), lane).queue;
    var all := Get(s, lane).queue + AcceptedBy(s, steps, lane);
    assert (served + left)[i] == all[i];
    if |served| > i {
      assert (served + left)[..i + 1] == served[..i + 1];
      assert all[..i + 1] == Get(s, lane).queue[..i + 1];
    }
  }

  // ---- the end of the stream -------------------------------------------------------------------------

  /** Where the receiver has given up on a lane, that lane is empty for good. */
  ghost predicate GivenUpRightly(s: State) {
    && (s.point == RecvControl ==> s.send == Lane([], false))
    && (s.point == RecvSend ==> s.control == Lane([], false))
  }

  lemma StepKeepsGivenUp(s: State, step: Step)
    requires GivenUpRightly(s)
    ensures GivenUpRightly(Next(s, step).0)
    ensures Next(s, step).1 == Ended ==> s.send == Lane([], false) && s.control == Lane([], false)
  {
  }

  /** In every run from the top the receiver returns nothing only when both lanes are empty and disconnected. */
  lemma {:induction false} EndsOnlyWhenDrained(s: State, steps: seq<Step>)
    requires GivenUpRightly(s)
    ensures GivenUpRightly(End(s, steps))
    ensures Poll(End(s, steps)).1 == Ended ==>
              End(s, steps).send == Lane([], false) && End(s, steps).control == Lane([], false)
    decreases |steps|
  {
    hide Poll;
    if steps == [] {
      StepKeepsGivenUp(s, Receive);
    } else {
      StepKeepsGivenUp(s, steps[0]);
      EndsOnlyWhenDrained(Next(s, steps[0]).0, steps[1..]);
    }
  }

  /** Once both lanes are empty and disconnected, four more operations are enough to end. */
  lemma DrainedLanesEnd(s: State)
    requires s.send == Lane([], false) && s.control == Lane([], false)
    ensures var s1 := Poll(s).0;
            var s2 := Poll(s1).0;
            Ended in {Poll(s).1, Poll(s1).1, Poll(s2).1, Poll(Poll(s2).0).1}
  {
  }

  // ---- sends come first -----------------------------------------------------------------------------------

  /** The lanes of the requests that a run serves, in the order they are served. */
  function ServedLanes(s: State, steps: seq<Step>): seq<LaneName>
    decreases |steps|
  {
    if steps == [] then []
    else
      var (next, event) := Next(s, steps[0]);
      (if event.Served? then [event.lane] else []) + ServedLanes(next, steps[1..])
  }

  /** How many sends were served since the last control request. */
  function SendsInARow(log: seq<LaneName>): nat {
    if log == [] || log[|log| - 1] == ControlLane then 0 else 1 + SendsInARow(log[..|log| - 1])
  }

  /** The receiver has not given up on a lane. */
  predicate Watching(s: State) { s.point != RecvControl && s.point != RecvSend }

  /** In no state of the run has the receiver given up on a lane. */
  ghost predicate KeepsWatching(s: State, steps: seq<Step>)
    decreases |steps|
  {
    Watching(s) && (steps == [] || KeepsWatching(Next(s, steps[0]).0, steps[1..]))
  }

  /** While both lanes are connected nothing is given up. */
  lemma {:induction false} ConnectedLanesAreWatched(s: State, steps: seq<Step>)
    requires Watching(s) && End(s, steps).send.open && End(s, steps).control.open
    ensures KeepsWatching(s, steps) && s.send.open && s.control.open
    decreases |steps|
  {
    hide Next;
    if steps != [] {
      LanesStayClosed(s, steps[0]);
      if !Watching(Next(s, steps[0]).0) || !s.send.open || !s.control.open {
        OnceClosed(Next(s, steps[0]).0, steps[1..]);
        GivingUpIsClosed(s, steps[0]);
      } else {
        ConnectedLanesAreWatched(Next(s, steps[0]).0, steps[1..]);
      }
    }
  }

  lemma LanesStayClosed(s: State, step: Step)
    ensures var t := Next(s, step).0; (t.send.open ==> s.send.open) && (t.control.open ==> s.control.open)
  {
  }

  lemma {:induction false} OnceClosed(s: State, steps: seq<Step>)
    ensures var t := End(s, steps); (t.send.open ==> s.send.open) && (t.control.open ==> s.control.open)
    decreases |steps|
  {
    hide Next;
    if steps != [] {
      LanesStayClosed(s, steps[0]);
      OnceClosed(Next(s, steps[0]).0, steps[1..]);
    }
  }

  lemma GivingUpIsClosed(s: State, step: Step)
    requires Watching(s)
    ensures var t := Next(s, step).0; !Watching(t) ==> !t.send.open || !t.control.open
  {
  }

  /** In every run of a watching receiver the burst is the number of sends served since the last control request. */
  lemma {:induction false} BurstCountsSends(s: State, steps: seq<Step>, log: seq<LaneName>)
    requires KeepsWatching(s, steps) && s.burst == Saturated(SendsInARow(log))
    ensures End(s, steps).burst == Saturated(SendsInARow(log + ServedLanes(s, steps)))
    decreases |steps|
  {
    hide Next, SendsInARow;
    if steps == [] {
      assert log + [] == log;
    } else {
      var (next, event) := Next(s, steps[0]);
      var now := if event.Served? then [event.lane] else [];
      StepCountsSends(s, steps[0], log);
      BurstCountsSends(next, steps[1..], log + now);
      Assoc(log, now, ServedLanes(next, steps[1..]));
    }
  }

  lemma StepCountsSends(s: State, step: Step, log: seq<LaneName>)
    requires Watching(s) && s.burst == Saturated(SendsInARow(log))
    ensures var (next, event) := Next(s, step);
            next.burst == Saturated(SendsInARow(log + (if event.Served? then [event.lane] else [])))
  {
    OneMoreServed(log, SendLane);
    OneMoreServed(log, ControlLane);
    hide SendsInARow;
    assert log + [] == log;
  }

  lemma OneMoreServed(log: seq<LaneName>, lane: LaneName)
    ensures SendsInARow(log + [lane]) == if lane == SendLane then SendsInARow(log) + 1 else 0
  {
    assert (log + [lane])[..|log|] == log;
  }

  /**
   * The next operation of a receiver that has watched both lanes since it started: a waiting send is served
   * before a waiting control request, unless the last 32 requests served were sends and it is at the top.
   */
  lemma SendsComeFirst(start: State, steps: seq<Step>)
    requires start.point == Top && start.burst == 0 && KeepsWatching(start, steps)
    ensures var s, sends := End(start, steps), SendsInARow(ServedLanes(start, steps));
            var (next, event) := Poll(s);
            && (s.point == Top && sends >= 32 && s.control.queue != [] ==> event == Served(ControlLane, s.control.queue[0]))
            && (s.point == Top && sends >= 32 && s.control.queue == [] ==> event == Quiet && next.point == TrySend)
            && (s.point == Top && sends < 32 && s.send.queue != [] ==> event == Served(SendLane, s.send.queue[0]))
            && ((s.point == TrySend || s.point == WaitSend) && s.send.queue != [] ==> event == Served(SendLane, s.send.queue[0]))
            && (event.Served? && event.lane == ControlLane ==> (s.point == Top && sends >= 32) || s.point == TryControl)
            && (next.point == TryControl ==> event == Quiet && s.send.queue == [] && s.send.open)
  {
    BurstCountsSends(start, steps, []);
    WatchedToTheEnd(start, steps);
    assert [] + ServedLanes(start, steps) == ServedLanes(start, steps);
    hide End, ServedLanes, SendsInARow, KeepsWatching, Poll;
    PollByBurst(End(start, steps), SendsInARow(ServedLanes(start, steps)));
  }

  lemma PollByBurst(s: State, sends: nat)
    requires Watching(s) && s.burst == Saturated(sends)
    ensures var (next, event) := Poll(s);
            && (s.point == Top && sends >= 32 && s.control.queue != [] ==> event == Served(ControlLane, s.control.queue[0]))
            && (s.point == Top && sends >= 32 && s.control.queue == [] ==> event == Quiet && next.point == TrySend)
            && (s.point == Top && sends < 32 && s.send.queue != [] ==> event == Served(SendLane, s.send.queue[0]))
            && ((s.point == TrySend || s.point == WaitSend) && s.send.queue != [] ==> event == Served(SendLane, s.send.queue[0]))
            && (event.Served? && event.lane == ControlLane ==> (s.point == Top && sends >= 32) || s.point == TryControl)
            && (next.point == TryControl ==> event == Quiet && s.send.queue == [] && s.send.open)
  {
  }

  lemma {:induction false} WatchedToTheEnd(s: State, steps: seq<Step>)
    requires KeepsWatching(s, steps)
    ensures Watching(End(s, steps))
    decreases |steps|
  {
    hide Next;
    if steps != [] {
      WatchedToTheEnd(Next(s, steps[0]).0, steps[1..]);
    }
  }

  // ---- how long a control request waits -----------------------------------------------------------------

  /** How many send requests can still be served before a waiting control request is. */
  function Credit(s: State): nat {
    match s.point
    case Top => if s.burst >= BURST then 0 else BURST - s.burst
    case TrySend => if s.burst >= BURST then 1 else BURST - s.burst
    case WaitSend => if s.burst >= BURST then 1 else BURST - s.burst
    case _ => 0
  }

  /** The same for the request with `ahead` others in front of it. */
  function Budget(s: State, ahead: nat): (n: nat)
    ensures n <= BURST * (ahead + 1)
  {
    Credit(s) + BURST * ahead
  }

  /** Receiver operations until the next request is served, while a control request waits. */
  function Hops(s: State): nat {
    match s.point
    case WaitSend => 3
    case Top => 2
    case TrySend => 1
    case _ => 0
  }

  /** An upper bound on the receiver operations until the request is served. */
  function Work(s: State, ahead: nat): nat { 4 * (Budget(s, ahead) + ahead) + Hops(s) }

  lemma ProducersDoNotDelay(s: State, a: Action, ahead: nat)
    requires GivenUpRightly(s) && ahead < |s.control.queue|
    ensures var t := Produce(s, a);
            && GivenUpRightly(t) && ahead < |t.control.queue| && t.control.queue[ahead] == s.control.queue[ahead]
            && Budget(t, ahead) == Budget(s, ahead) && Work(t, ahead) == Work(s, ahead)
  {
  }

  /** Every receiver operation uses up work; serving a send request uses up the budget. */
  lemma PollUsesBudget(s: State, ahead: nat)
    requires GivenUpRightly(s) && ahead < |s.control.queue|
    ensures var (t, event) := Poll(s);
            && event != Ended
            && (event == Quiet ==> t.control == s.control && Budget(t, ahead) <= Budget(s, ahead) && Work(t, ahead) < Work(s, ahead))
            && (event.Served? && event.lane == SendLane ==>
                  t.control == s.control && Budget(t, ahead) < Budget(s, ahead) && Work(t, ahead) < Work(s, ahead))
            && (event.Served? && event.lane == ControlLane && ahead > 0 ==>
                  && t.control.queue == s.control.queue[1..]
                  && Budget(t, ahead - 1) <= Budget(s, ahead) && Work(t, ahead - 1) < Work(s, ahead))
            && (event.Served? && event.lane == ControlLane && ahead == 0 ==> event.request == s.control.queue[0])
  {
  }

  function ReceiverSteps(steps: seq<Step>): nat {
    if steps == [] then 0 else (if steps[0].Receive? then 1 else 0) + ReceiverSteps(steps[1..])
  }

  /**
   * While the control request with `ahead` others in front of it is not served, a run serves at most
   * `32 * (ahead + 1)` send requests, and at most `Work` receiver operations go by.
   */
  lemma {:induction false} ControlWaitIsBounded(s: State, steps: seq<Step>, ahead: nat)
    requires GivenUpRightly(s) && ahead < |s.control.queue|
    requires |ServedFrom(s, steps, ControlLane)| <= ahead
    ensures |ServedFrom(s, steps, SendLane)| <= Budget(s, ahead) <= 32 * (ahead + 1)
    ensures ReceiverSteps(steps) <= Work(s, ahead)
    decreases |steps|
  {
    hide Poll, Produce, Credit, Hops;
    if steps != [] {
      var (next, event) := Next(s, steps[0]);
      match steps[0] {
        case Producer(a) =>
          ProducersDoNotDelay(s, a, ahead);
          ControlWaitIsBounded(next, steps[1..], ahead);
        case Receive =>
          PollUsesBudget(s, ahead);
          StepKeepsGivenUp(s, Receive);
          var served := event.Served? && event.lane == ControlLane;
          ControlWaitIsBounded(next, steps[1..], if served then ahead - 1 else ahead);
      }
    }
  }

  lemma {:induction false} ServedSplits(s: State, a: seq<Step>, b: seq<Step>, lane: LaneName)
    ensures ServedFrom(s, a + b, lane) == ServedFrom(s, a, lane) + ServedFrom(End(s, a), b, lane)
    decreases |a|
  {
    hide Next, ServedNow;
    if a == [] {
      assert a + b == b;
    } else {
      var (next, event) := Next(s, a[0]);
      assert (a + b)[1..] == a[1..] + b;
      ServedSplits(next, a[1..], b, lane);
      Assoc(ServedNow(event, lane), ServedFrom(next, a[1..], lane), ServedFrom(End(next, a[1..]), b, lane));
    }
  }

  function Receives(n: nat): seq<Step> { seq(n, _ => Receive) }

  lemma {:induction false} BurstOfSends(s: State, n: nat)
    requires s.point == Top && s.burst + n <= BURST && n <= |s.send.queue|
    ensures |ServedFrom(s, Receives(n), SendLane)| == n
    ensures ServedFrom(s, Receives(n), ControlLane) == []
    ensures End(s, Receives(n)) == s.(send := s.send.(queue := s.send.queue[n..]), burst := s.burst + n)
    decreases n
  {
    if n > 0 {
      assert Receives(n)[1..] == Receives(n - 1);
      BurstOfSends(Poll(s).0, n - 1);
    }
  }

  /** The bound is reached: a busy send lane gets 32 requests in before each control request. */
  lemma {:induction false} BoundIsReached(s: State, ahead: nat) returns (steps: seq<Step>)
    requires s.point == Top && s.burst == 0
    requires |s.send.queue| >= 32 * (ahead + 1) && |s.control.queue| > ahead
    ensures |ServedFrom(s, steps, SendLane)| == 32 * (ahead + 1)
    ensures |ServedFrom(s, steps, ControlLane)| == ahead
    decreases ahead
  {
    BurstOfSends(s, BURST);
    steps := Receives(BURST);
    if ahead > 0 {
      var full := End(s, steps);
      var next := Poll(full).0;
      assert Poll(full).1 == Served(ControlLane, full.control.queue[0]);
      var later := BoundIsReached(next, ahead - 1);
      assert ([Receive] + later)[1..] == later;
      ServedSplits(s, steps, [Receive] + later, SendLane);
      ServedSplits(s, steps, [Receive] + later, ControlLane);
      steps := steps + ([Receive] + later);
    }
  }
}
