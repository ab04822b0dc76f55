/**
 * The authentication throttle: a pruned list of failure times and a lockout
 * time per client (`ensure_auth_attempt_allowed`, `record_auth_failure`,
 * `clear_auth_failures`), and what it guarantees about whole histories when
 * attempts of one client overlap and a call reads the clock before it takes the lock.
 */
module AuthThrottle {
  import opened Wrappers

  const LIMIT: nat := 5
  const WINDOW_MS: int := 300_000
  const LOCKOUT_MS: int := 300_000

  const I64_MIN: int := -0x8000_0000_0000_0000
  const I64_MAX: int := 0x7FFF_FFFF_FFFF_FFFF

  function Clamp(n: int): int { Max(I64_MIN, Min(I64_MAX, n)) }

  /** Millisecond timestamps a UTC date-time can have; far inside the 64-bit range. */
  const CLOCK_MAX: int := 8_400_000_000_000_000

  type Millis = t: int | -CLOCK_MAX <= t <= CLOCK_MAX

  datatype Window = Window(failures: seq<Millis>, lockedUntil: Option<int>)

  // ---- one call ------------------------------------------------------------------------

  /** `retain`: the failures that are at most a window old. */
  function Recent(failures: seq<Millis>, now: Millis): seq<Millis> {
    if failures == [] then []
    else
      var rest := Recent(failures[1..], now);
      if Clamp(now - failures[0]) <= WINDOW_MS then [failures[0]] + rest else rest
  }

  predicate IsLocked(w: Option<Window>, now: Millis) {
    w.Some? && w.value.lockedUntil.Some? && w.value.lockedUntil.value > now
  }

  /** A client's window after an admitted attempt. */
  function AfterAdmission(w: Option<Window>, now: Millis): Option<Window> {
    match w case None => None case Some(win) => Some(Window(Recent(win.failures, now), None))
  }

  /** A client's window after a failure; its lockout starts when the recent failures reach the limit. */
  function AfterFailure(w: Option<Window>, now: Millis): Window {
    var win := match w case None => Window([], None) case Some(win) => win;
    var failures := Recent(win.failures, now) + [now];
    Window(failures, if |failures| >= LIMIT then Some(Clamp(now + LOCKOUT_MS)) else win.lockedUntil)
  }

  class Throttle {
    var clients: map<string, Window>

    constructor ()
      ensures clients == map[]
    {
      clients := map[];
    }

    function Client(key: string): Option<Window>
      reads this
    {
      if key in clients then Some(clients[key]) else None
    }

    /** Admits or refuses an attempt; other clients are never touched. */
    method EnsureAttemptAllowed(key: string, now: Millis) returns (allowed: bool)
      modifies this
      ensures allowed == !IsLocked(old(Client(key)), now)
      ensures Client(key) == if allowed then AfterAdmission(old(Client(key)), now) else old(Client(key))
      ensures forall k | k != key :: Client(k) == old(Client(k))
    {
      if key !in clients {
        return true;
      }
      var window := clients[key];
      if window.lockedUntil.Some? && window.lockedUntil.value > now {
        return false;
      }
      window := window.(lockedUntil := None);
      window := window.(failures := Recent(window.failures, now));
      clients := clients[key := window];
      allowed := true;
    }

    /** Records a failure; the answer says whether it started a lockout. */
    method RecordFailure(key: string, now: Millis) returns (limited: bool)
      modifies this
      ensures Client(key) == Some(AfterFailure(old(Client(key)), now))
      ensures limited == (|AfterFailure(old(Client(key)), now).failures| >= LIMIT)
      ensures forall k | k != key :: Client(k) == old(Client(k))
    {
      var window := if key in clients then clients[key] else Window([], None);
      window := window.(failures := Recent(window.failures, now));
      window := window.(failures := window.failures + [now]);
      limited := |window.failures| >= LIMIT;
      if limited {
        window := window.(lockedUntil := Some(Clamp(now + LOCKOUT_MS)));
      }
      clients := clients[key := window];
    }

    method ClearFailures(key: string)
      modifies this
      ensures Client(key) == None
      ensures forall k | k != key :: Client(k) == old(Client(k))
    {
      clients := clients - {key};
    }
  }

  // ---- histories ----------------------------------------------------------------------------

  /**
   * An attempt: the stamp of its admission, how many failures were recorded before, and
   * what the clock said when it turned to recording its own.
   */
  datatype Attempt = Attempt(started: Millis, seen: nat, reading: Option<Millis>)

  /** A recorded failure: its clock reading, the stamp of the lock it was recorded under, and whether it was answered with the limit. */
  datatype Failure = Failure(at: Millis, stamp: Millis, limited: bool)

  /**
   * What stamps are: the clock when the lock is taken, or the largest reading used so far.
   * A reading is never ahead of its stamp; how far it can be behind is the lag of a run.
   */
  datatype Base = WallClock | Readings

  /**
   * One client as a protocol. A call reads the clock in one step and takes the lock in
   * another; between them, and between an attempt's admission and its outcome, others act.
   * `history` holds every failure since the last success and `attempts` the attempt each
   * came from; they, the stamps and `prunedAt` exist for the statements only.
   */
  datatype State = State(
    window: Option<Window>,
    asking: seq<Millis>,
    inFlight: seq<Attempt>,
    clock: Millis,
    stamp: Millis,
    prunedAt: Millis,
    history: seq<Failure>,
    attempts: seq<Attempt>)

  datatype Action =
    | Ask             // an attempt arrives and reads the clock
    | Enter(i: nat)   // asking attempt i takes the lock and is admitted or refused
    | Supply(i: nat)  // attempt i in flight supplied a wrong credential and reads the clock
    | Fail(i: nat)    // it takes the lock and records its failure
    | Succeed(i: nat) // attempt i in flight supplied a right credential
    | Leave(i: nat)   // attempt i in flight supplied none

  /** What a run is held to: at most `width` attempts in flight, and no reading more than `lag` behind its stamp. */
  datatype Terms = Terms(base: Base, width: nat, lag: nat)

  function Initial(clock: Millis): State { State(None, [], [], clock, clock, clock, [], []) }

  function Later(a: Millis, b: Millis): Millis { if a >= b then a else b }

  predicate Possible(s: State, a: Action, now: Millis) {
    && s.clock <= now
    && match a {
         case Ask => true
         case Enter(i) => i < |s.asking|
         case Supply(i) => i < |s.inFlight| && s.inFlight[i].reading.None?
         case Fail(i) => i < |s.inFlight| && s.inFlight[i].reading.Some?
         case Succeed(i) => i < |s.inFlight| && s.inFlight[i].reading.None?
         case Leave(i) => i < |s.inFlight| && s.inFlight[i].reading.None?
       }
  }

  /** The stamp of a lock taken at `now` for a call that read `reading`. */
  function StampOf(base: Base, s: State, reading: Millis, now: Millis): Millis {
    match base case WallClock => now case Readings => Later(s.stamp, reading)
  }

  predicate Prompt(s: State, a: Action, now: Millis, terms: Terms)
    requires Possible(s, a, now)
  {
    match a
    case Enter(i) => StampOf(terms.base, s, s.asking[i], now) - s.asking[i] <= terms.lag
    case Fail(i) =>
      var reading := s.inFlight[i].reading.value; StampOf(terms.base, s, reading, now) - reading <= terms.lag
    case Ask => true
    case Supply(_) => true
    case Succeed(_) => true
    case Leave(_) => true
  }

  function Entered(s: State, i: nat, stamp: Millis): State
    requires i < |s.asking|
  {
    var reading := s.asking[i];
    var t := s.(stamp := stamp, asking := Without(s.asking, i));
    if IsLocked(s.window, reading) then t
    else t.(window := AfterAdmission(s.window, reading), prunedAt := Later(s.prunedAt, reading),
            inFlight := s.inFlight + [Attempt(stamp, |s.history|, None)])
  }

  function Failed(s: State, i: nat, stamp: Millis): State
    requires i < |s.inFlight| && s.inFlight[i].reading.Some?
  {
    var reading := s.inFlight[i].reading.value;
    var window := AfterFailure(s.window, reading);
    s.(window := Some(window), stamp := stamp, prunedAt := Later(s.prunedAt, reading),
       history := s.history + [Failure(reading, stamp, |window.failures| >= LIMIT)],
       attempts := s.attempts + [s.inFlight[i]], inFlight := Without(s.inFlight, i))
  }

  function Step(base: Base, s: State, a: Action, now: Millis): State
    requires Possible(s, a, now)
  {
    match a
    case Ask => s.(clock := now, asking := s.asking + [now])
    case Enter(i) => Entered(s, i, StampOf(base, s, s.asking[i], now)).(clock := now)
    case Supply(i) => s.(clock := now, inFlight := s.inFlight[i := s.inFlight[i].(reading := Some(now))])
    case Fail(i) => Failed(s, i, StampOf(base, s, s.inFlight[i].reading.value, now)).(clock := now)
    case Succeed(i) =>
      s.(window := None, clock := now, history := [], attempts := [], inFlight := Restarted(Without(s.inFlight, i)))
    case Leave(i) => s.(clock := now, inFlight := Without(s.inFlight, i))
  }

  /** Attempts in flight when the history is forgotten. */
  function Restarted(inFlight: seq<Attempt>): (r: seq<Attempt>)
    ensures |r| == |inFlight| && forall i | 0 <= i < |r| :: r[i] == inFlight[i].(seen := 0)
  {
    seq(|inFlight|, i requires 0 <= i < |inFlight| => inFlight[i].(seen := 0))
  }

  datatype Event = Event(action: Action, now: Millis)

  ghost predicate IsRun(start: State, events: seq<Event>, end: State, terms: Terms)
    decreases |events|
  {
    |start.inFlight| <= terms.width &&
    if events == [] then start == end
    else
      var e := events[0];
      && Possible(start, e.action, e.now) && Prompt(start, e.action, e.now, terms)
      && IsRun(Step(terms.base, start, e.action, e.now), events[1..], end, terms)
  }

  function ReadingsOf(history: seq<Failure>): (r: seq<Millis>)
    ensures |r| == |history| && forall i | 0 <= i < |r| :: r[i] == history[i].at
  {
    seq(|history|, i requires 0 <= i < |history| => history[i].at)
  }

  /** Failure `i` is the last of five failures inside five minutes. */
  predicate Trips(times: seq<Millis>, i: nat) {
    4 <= i < |times| && times[i] as int - times[i - 4] <= 300_000
  }

  /** Failure `i` ends `LIMIT` failures inside one window, allowing for the lag of their readings. */
  predicate Bunched(history: seq<Failure>, i: nat, lag: nat) {
    LIMIT <= i + 1 <= |history| && history[i].stamp - history[i + 1 - LIMIT].stamp <= WINDOW_MS - lag
  }

  /** Enough earlier failures are at most a window older than failure `i`. */
  predicate Earned(history: seq<Failure>, i: nat)
    requires i < |history|
  {
    |Recent(ReadingsOf(history[..i]), history[i].at)| >= LIMIT - 1
  }

  // ---- the invariant ----------------------------------------------------------------------------

  ghost predicate Sorted(times: seq<Millis>) {
    forall i, j | 0 <= i <= j < |times| :: times[i] <= times[j]
  }

  /** How many of the attempts were admitted before failure `i` was recorded. */
  function Older(attempts: seq<Attempt>, i: nat): nat {
    if attempts == [] then 0 else (if attempts[0].seen <= i then 1 else 0) + Older(attempts[1..], i)
  }

  /** When the lockout that failure `i` starts is certainly still on: up to this stamp. */
  function LockedTo(f: Failure, lag: nat): int { f.stamp + LOCKOUT_MS - lag }

  /** An admitted attempt started after every lockout it could see. */
  ghost predicate Respects(a: Attempt, history: seq<Failure>, lag: nat) {
    forall i | 0 <= i < a.seen && i < |history| && history[i].limited :: a.started >= LockedTo(history[i], lag)
  }

  ghost predicate Ordered(history: seq<Failure>, lag: nat) {
    && (forall i, j | 0 <= i <= j < |history| :: history[i].stamp <= history[j].stamp)
    && (forall i | 0 <= i < |history| :: history[i].at <= history[i].stamp <= history[i].at + lag)
  }

  ghost predicate Timely(s: State, lag: nat) {
    && Ordered(s.history, lag)
    && (s.history != [] ==> s.history[|s.history| - 1].stamp <= s.stamp)
    && s.prunedAt <= s.stamp <= s.clock
    && |s.attempts| == |s.history|
    && (forall j | 0 <= j < |s.history| :: s.attempts[j].started <= s.history[j].stamp && s.attempts[j].seen <= j)
    && (forall a | a in s.inFlight :: a.started <= s.stamp && a.seen <= |s.history| && (a.reading.Some? ==> a.reading.value <= s.clock))
    && (forall reading | reading in s.asking :: reading <= s.clock)
  }

  /** The stored window is a view of the whole history. */
  ghost predicate Represents(s: State) {
    match s.window
    case None => s.history == []
    case Some(w) =>
      && w.failures == Recent(ReadingsOf(s.history), s.prunedAt)
      && (w.lockedUntil.Some? ==>
            exists i | 0 <= i < |s.history| :: s.history[i].limited && w.lockedUntil.value == s.history[i].at + LOCKOUT_MS)
  }

  /** The limit was answered to failures that earned it, and to all that were close enough. */
  ghost predicate Judged(history: seq<Failure>, lag: nat) {
    forall i | 0 <= i < |history| ::
      (history[i].limited ==> Earned(history, i)) && (Bunched(history, i, lag) ==> history[i].limited)
  }

  /** Every lockout is either still set or over. */
  ghost predicate Enforced(s: State, lag: nat) {
    forall i | 0 <= i < |s.history| && s.history[i].limited ::
      || s.stamp >= LockedTo(s.history[i], lag)
      || (s.window.Some? && s.window.value.lockedUntil.Some?
          && s.window.value.lockedUntil.value >= LockedTo(s.history[i], lag))
  }

  ghost predicate Honoured(s: State, lag: nat) {
    && (forall a | a in s.attempts :: Respects(a, s.history, lag))
    && (forall a | a in s.inFlight :: Respects(a, s.history, lag))
  }

  /** Fewer than `width` attempts that overlapped failure `i` fail after it or are still in flight. */
  ghost predicate Crowded(s: State, width: nat)
    requires |s.attempts| == |s.history|
  {
    forall i | 0 <= i < |s.history| :: Older(s.attempts[i + 1..], i) + Older(s.inFlight, i) < width
  }

  /** What holds whatever the clock says and whoever is asking. */
  ghost predicate Sound(s: State, terms: Terms) {
    && |s.attempts| == |s.history| && Represents(s) && Judged(s.history, terms.lag)
    && Enforced(s, terms.lag) && Honoured(s, terms.lag) && Crowded(s, terms.width)
  }

  ghost predicate Inv(s: State, terms: Terms) { Timely(s, terms.lag) && Sound(s, terms) }

  // ---- facts about lists -----------------------------------------------------------------------------

  lemma {:induction false} AllRecent(times: seq<Millis>, now: Millis)
    requires forall i | 0 <= i < |times| :: now - times[i] <= WINDOW_MS
    ensures Recent(times, now) == times
  {
    if times != [] {
      ClampIsExact(times[0], now);
      AllRecent(times[1..], now);
    }
  }

  lemma ClampIsExact(t: Millis, now: Millis)
    ensures Clamp(now - t) == now - t && Clamp(now + LOCKOUT_MS) == now + LOCKOUT_MS
  {
  }

  lemma {:induction false} RecentJoins(a: seq<Millis>, b: seq<Millis>, now: Millis)
    ensures Recent(a + b, now) == Recent(a, now) + Recent(b, now)
  {
    if a == [] {
      assert a + b == b;
    } else {
      assert (a + b)[1..] == a[1..] + b;
      RecentJoins(a[1..], b, now);
    }
  }

  /** Pruning twice is pruning once, with the larger reading. */
  lemma {:induction false} RecentOfRecent(times: seq<Millis>, first: Millis, second: Millis)
    ensures Recent(Recent(times, first), second) == Recent(times, Later(first, second))
  {
    if times != [] {
      RecentOfRecent(times[1..], first, second);
      var rest := Recent(times[1..], first);
      assert ([times[0]] + rest)[1..] == rest;
    }
  }

  /** A larger reading prunes more. */
  lemma {:induction false} RecentShrinks(times: seq<Millis>, earlier: Millis, now: Millis)
    requires earlier <= now
    ensures |Recent(times, now)| <= |Recent(times, earlier)|
  {
    if times != [] {
      RecentShrinks(times[1..], earlier, now);
    }
  }

  /** What is recent at the end of a list is kept. */
  lemma RecentKeepsTail(times: seq<Millis>, now: Millis, n: nat)
    requires n <= |times| && forall i | |times| - n <= i < |times| :: now - times[i] <= WINDOW_MS
    ensures |Recent(times, now)| >= n
  {
    var front, back := times[..|times| - n], times[|times| - n..];
    assert times == front + back;
    RecentJoins(front, back, now);
    AllRecent(back, now);
  }

  /** In a sorted history the recent failures are a suffix. */
  lemma {:induction false} RecentIsSuffix(times: seq<Millis>, now: Millis) returns (k: nat)
    requires Sorted(times)
    ensures k <= |times| && Recent(times, now) == times[k..]
    ensures k > 0 ==> now - times[k - 1] > WINDOW_MS
    ensures k < |times| ==> now - times[k] <= WINDOW_MS
  {
    hide Clamp;
    if times == [] {
      k := 0;
      return;
    }
    ClampIsExact(times[0], now);
    if now - times[0] <= WINDOW_MS {
      AllRecent(times, now);
      k := 0;
    } else {
      var n := RecentIsSuffix(times[1..], now);
      k := n + 1;
    }
  }

  /** With readings in order the pruned failures reach the limit exactly when the new failure trips. */
  lemma LimitIsTrip(times: seq<Millis>, now: Millis)
    requires Sorted(times) && (times != [] ==> times[|times| - 1] <= now)
    ensures |Recent(times, now) + [now]| >= LIMIT <==> Trips(times + [now], |times|)
  {
    hide Recent;
    var k := RecentIsSuffix(times, now);
    var all := times + [now];
    var first := |all| - LIMIT;
    if 0 <= first < |times| {
      assert all[first] == times[first];
      if first < k { assert times[first] <= times[k - 1]; } else { assert times[first] >= times[k]; }
    }
  }

  lemma {:induction false} OlderAppend(a: seq<Attempt>, b: seq<Attempt>, i: nat)
    ensures Older(a + b, i) == Older(a, i) + Older(b, i)
  {
    if a == [] {
      assert a + b == b;
    } else {
      assert (a + b)[1..] == a[1..] + b;
      OlderAppend(a[1..], b, i);
    }
  }

  lemma OlderOfOne(a: Attempt, i: nat)
    ensures Older([a], i) == if a.seen <= i then 1 else 0
  {
  }

  lemma OlderWithout(a: seq<Attempt>, k: nat, i: nat)
    requires k < |a|
    ensures Older(a, i) == Older(Without(a, k), i) + Older([a[k]], i)
  {
    assert a == a[..k] + ([a[k]] + a[k + 1..]);
    OlderAppend(a[..k], [a[k]] + a[k + 1..], i);
    OlderAppend([a[k]], a[k + 1..], i);
    OlderAppend(a[..k], a[k + 1..], i);
  }

  lemma {:induction false} OlderIsBounded(a: seq<Attempt>, i: nat)
    ensures Older(a, i) <= |a|
    ensures (forall k | 0 <= k < |a| :: a[k].seen <= i) ==> Older(a, i) == |a|
  {
    if a != [] {
      OlderIsBounded(a[1..], i);
    }
  }

  // ---- every step keeps the order --------------------------------------------------------------------

  lemma WithoutIsPart<T>(s: seq<T>, i: nat)
    requires i < |s|
    ensures forall x | x in Without(s, i) :: x in s
  {
  }

  lemma EnterKeepsTimely(s: State, i: nat, stamp: Millis, now: Millis, lag: nat)
    requires Timely(s, lag) && i < |s.asking| && s.clock <= now && s.stamp <= stamp <= now && s.asking[i] <= stamp
    ensures Timely(Entered(s, i, stamp).(clock := now), lag)
  {
    hide AfterAdmission, IsLocked, Ordered;
    WithoutIsPart(s.asking, i);
  }

  lemma FailKeepsTimely(s: State, i: nat, stamp: Millis, now: Millis, lag: nat)
    requires Timely(s, lag) && i < |s.inFlight| && s.inFlight[i].reading.Some?
    requires s.clock <= now && s.stamp <= stamp <= now && s.inFlight[i].reading.value <= stamp <= s.inFlight[i].reading.value + lag
    ensures Timely(Failed(s, i, stamp).(clock := now), lag)
  {
    hide AfterFailure;
    WithoutIsPart(s.inFlight, i);
    assert s.inFlight[i] in s.inFlight;
  }

  lemma StepKeepsTimely(s: State, a: Action, now: Millis, terms: Terms)
    requires Timely(s, terms.lag) && Possible(s, a, now) && Prompt(s, a, now, terms)
    ensures Timely(Step(terms.base, s, a, now), terms.lag)
  {
    hide Entered, Failed;
    match a
    case Ask =>
    case Enter(i) =>
      assert s.asking[i] in s.asking;
      EnterKeepsTimely(s, i, StampOf(terms.base, s, s.asking[i], now), now, terms.lag);
    case Supply(i) =>
      hide Ordered;
      assert s.inFlight[i] in s.inFlight;
    case Fail(i) =>
      assert s.inFlight[i] in s.inFlight;
      FailKeepsTimely(s, i, StampOf(terms.base, s, s.inFlight[i].reading.value, now), now, terms.lag);
    case Succeed(i) =>
      SucceedKeepsTimely(s, i, now, terms.lag);
    case Leave(i) =>
      hide Ordered;
      WithoutIsPart(s.inFlight, i);
  }

  lemma SucceedKeepsTimely(s: State, i: nat, now: Millis, lag: nat)
    requires Timely(s, lag) && i < |s.inFlight| && s.clock <= now
    ensures Timely(s.(window := None, clock := now, history := [], attempts := [],
                      inFlight := Restarted(Without(s.inFlight, i))), lag)
  {
    var kept := Without(s.inFlight, i);
    WithoutIsPart(s.inFlight, i);
    hide Without;
    forall x | x in Restarted(kept) ensures exists y :: y in s.inFlight && x == y.(seen := 0) {
      var k :| 0 <= k < |kept| && Restarted(kept)[k] == x;
      assert kept[k] in s.inFlight;
    }
  }

  lemma {:induction false} RunKeepsTimely(s: State, events: seq<Event>, t: State, terms: Terms)
    requires Timely(s, terms.lag) && IsRun(s, events, t, terms)
    ensures Timely(t, terms.lag)
    decreases |events|
  {
    hide Timely, Step, Possible, Prompt;
    if events != [] {
      var e := events[0];
      StepKeepsTimely(s, e.action, e.now, terms);
      RunKeepsTimely(Step(terms.base, s, e.action, e.now), events[1..], t, terms);
    }
  }

  // ---- every step keeps the invariant ----------------------------------------------------------------

  /** Recording a failure leaves the recent part of the longer history. */
  lemma FailurePrunesHistory(s: State, reading: Millis, stamp: Millis, lag: nat)
    requires Timely(s, lag) && Represents(s) && lag <= WINDOW_MS && s.stamp <= stamp <= reading + lag
    ensures var now, kept := Later(s.prunedAt, reading), Recent(ReadingsOf(s.history), Later(s.prunedAt, reading));
            && AfterFailure(s.window, reading).failures == kept + [reading]
            && Recent(ReadingsOf(s.history) + [reading], now) == kept + [reading]
  {
    var times, now := ReadingsOf(s.history), Later(s.prunedAt, reading);
    RecentJoins(times, [reading], now);
    AllRecent([reading], now);
    hide Recent, Ordered;
    if s.window.Some? {
      RecentOfRecent(times, s.prunedAt, reading);
    } else {
      NothingIsRecent(reading, now);
      assert times == [];
    }
  }

  lemma NothingIsRecent(a: Millis, b: Millis)
    ensures Recent([], a) == Recent([], b) == []
  {
  }

  lemma FailKeepsRepresents(s: State, i: nat, stamp: Millis, lag: nat)
    requires Timely(s, lag) && Represents(s) && lag <= WINDOW_MS
    requires i < |s.inFlight| && s.inFlight[i].reading.Some? && s.stamp <= stamp <= s.inFlight[i].reading.value + lag
    ensures Represents(Failed(s, i, stamp))
  {
    hide Recent, Ordered;
    var reading, t := s.inFlight[i].reading.value, Failed(s, i, stamp);
    FailurePrunesHistory(s, reading, stamp, lag);
    ClampIsExact(reading, reading);
    assert ReadingsOf(t.history) == ReadingsOf(s.history) + [reading];
    var n := |s.history|;
    if t.window.value.lockedUntil.Some? {
      if t.history[n].limited {
        assert t.window.value.lockedUntil.value == t.history[n].at + LOCKOUT_MS;
      } else {
        var j :| 0 <= j < n && s.history[j].limited && s.window.value.lockedUntil.value == s.history[j].at + LOCKOUT_MS;
        assert t.history[j] == s.history[j];
      }
    }
  }

  /** A failure is answered with the limit when it earned it, and whenever it is close enough to those before it. */
  lemma FailKeepsJudged(s: State, i: nat, stamp: Millis, lag: nat)
    requires Timely(s, lag) && Represents(s) && Judged(s.history, lag) && lag <= WINDOW_MS
    requires i < |s.inFlight| && s.inFlight[i].reading.Some? && s.stamp <= stamp <= s.inFlight[i].reading.value + lag
    requires s.inFlight[i].reading.value <= stamp
    ensures Judged(Failed(s, i, stamp).history, lag)
  {
    hide Recent, AfterFailure;
    var reading, history := s.inFlight[i].reading.value, Failed(s, i, stamp).history;
    var n, times, now := |s.history|, ReadingsOf(s.history), Later(s.prunedAt, reading);
    FailurePrunesHistory(s, reading, stamp, lag);
    assert history[..n] == s.history;
    if history[n].limited {
      RecentShrinks(times, reading, now);
    }
    if Bunched(history, n, lag) {
      RecentKeepsTail(times, now, LIMIT - 1);
    }
    forall j | 0 <= j < n ensures history[..j] == s.history[..j] && history[j] == s.history[j] {}
  }

  lemma FailKeepsEnforced(s: State, i: nat, stamp: Millis, lag: nat)
    requires Timely(s, lag) && Enforced(s, lag)
    requires i < |s.inFlight| && s.inFlight[i].reading.Some? && s.stamp <= stamp <= s.inFlight[i].reading.value + lag
    ensures Enforced(Failed(s, i, stamp), lag)
  {
    hide Recent;
    var reading, t := s.inFlight[i].reading.value, Failed(s, i, stamp);
    ClampIsExact(reading, reading);
    forall j | 0 <= j < |s.history| ensures t.history[j] == s.history[j] && s.history[j].stamp <= s.stamp {}
  }

  lemma FailKeepsHonoured(s: State, i: nat, stamp: Millis, lag: nat)
    requires Timely(s, lag) && Honoured(s, lag) && i < |s.inFlight| && s.inFlight[i].reading.Some?
    ensures Honoured(Failed(s, i, stamp), lag)
  {
    hide AfterFailure, Ordered;
    var t := Failed(s, i, stamp);
    WithoutIsPart(s.inFlight, i);
    forall a: Attempt | a.seen <= |s.history| && Respects(a, s.history, lag) ensures Respects(a, t.history, lag) {}
    forall a | a in s.attempts ensures a.seen <= |s.history| {
      var k :| 0 <= k < |s.attempts| && s.attempts[k] == a;
      assert s.attempts[k].seen <= k;
    }
    assert s.inFlight[i] in s.inFlight;
  }

  lemma FailKeepsCrowd(s: State, i: nat, stamp: Millis, width: nat)
    requires |s.attempts| == |s.history| && Crowded(s, width)
    requires i < |s.inFlight| <= width && s.inFlight[i].reading.Some?
    ensures Crowded(Failed(s, i, stamp), width)
  {
    hide AfterFailure, Older;
    var t := Failed(s, i, stamp);
    forall j | 0 <= j < |t.history| ensures Older(t.attempts[j + 1..], j) + Older(t.inFlight, j) < width {
      if j < |s.history| {
        OlderWithout(s.inFlight, i, j);
        assert t.attempts[j + 1..] == s.attempts[j + 1..] + [s.inFlight[i]];
        OlderAppend(s.attempts[j + 1..], [s.inFlight[i]], j);
      } else {
        assert t.attempts[j + 1..] == [];
        OlderIsBounded([], j);
        OlderIsBounded(t.inFlight, j);
      }
    }
  }

  /** An admission prunes, clears a lockout that is over, and starts an attempt after every lockout. */
  lemma AdmissionKeepsHistory(s: State, i: nat, stamp: Millis, terms: Terms)
    requires Inv(s, terms) && i < |s.asking| && !IsLocked(s.window, s.asking[i])
    requires s.stamp <= stamp && s.asking[i] <= stamp
    ensures var t := Entered(s, i, stamp);
            Represents(t) && Enforced(t, terms.lag) && Honoured(t, terms.lag)
  {
    hide Recent, Older, Crowded, Ordered, Judged;
    var t, a := Entered(s, i, stamp), Attempt(stamp, |s.history|, None);
    if s.window.Some? { RecentOfRecent(ReadingsOf(s.history), s.prunedAt, s.asking[i]); }
    assert forall j | 0 <= j < |s.history| && s.history[j].limited :: stamp >= LockedTo(s.history[j], terms.lag);
    assert Respects(a, s.history, terms.lag);
    assert forall x :: x in t.inFlight <==> x in s.inFlight || x == a;
  }

  lemma AdmissionKeepsCrowd(s: State, i: nat, stamp: Millis, width: nat)
    requires |s.attempts| == |s.history| && Crowded(s, width) && i < |s.asking|
    ensures Crowded(Entered(s, i, stamp), width)
  {
    hide Older, AfterAdmission, IsLocked;
    var t, a := Entered(s, i, stamp), Attempt(stamp, |s.history|, None);
    forall j | 0 <= j < |t.history| ensures Older(t.attempts[j + 1..], j) + Older(t.inFlight, j) < width {
      OlderAppend(s.inFlight, [a], j);
      OlderOfOne(a, j);
    }
  }

  lemma EnterKeepsInv(s: State, i: nat, stamp: Millis, terms: Terms)
    requires Inv(s, terms) && i < |s.asking| && s.stamp <= stamp && s.asking[i] <= stamp
    ensures Sound(Entered(s, i, stamp), terms)
  {
    AdmissionKeepsCrowd(s, i, stamp, terms.width);
    if !IsLocked(s.window, s.asking[i]) {
      AdmissionKeepsHistory(s, i, stamp, terms);
    } else {
      hide Recent, Older, Ordered, Judged, Crowded, IsLocked;
      assert Represents(Entered(s, i, stamp));
    }
    hide Represents, Judged, Enforced, Honoured, Crowded;
  }

  lemma FailKeepsInv(s: State, i: nat, stamp: Millis, terms: Terms)
    requires Inv(s, terms) && terms.lag <= WINDOW_MS && |s.inFlight| <= terms.width
    requires i < |s.inFlight| && s.inFlight[i].reading.Some?
    requires s.stamp <= stamp && s.inFlight[i].reading.value <= stamp <= s.inFlight[i].reading.value + terms.lag
    ensures Sound(Failed(s, i, stamp), terms)
  {
    assert |s.attempts| == |s.history|;
    hide Timely, Represents, Judged, Enforced, Honoured, Crowded, AfterFailure;
    FailKeepsRepresents(s, i, stamp, terms.lag);
    FailKeepsJudged(s, i, stamp, terms.lag);
    FailKeepsEnforced(s, i, stamp, terms.lag);
    FailKeepsHonoured(s, i, stamp, terms.lag);
    FailKeepsCrowd(s, i, stamp, terms.width);
  }

  /** Reading the clock changes nothing that matters. */
  lemma SupplyKeepsInv(s: State, i: nat, now: Millis, terms: Terms)
    requires Inv(s, terms) && i < |s.inFlight|
    ensures Sound(s.(clock := now, inFlight := s.inFlight[i := s.inFlight[i].(reading := Some(now))]), terms)
  {
    hide Recent, Older, Judged, Ordered;
    var b := s.inFlight[i].(reading := Some(now));
    var after := s.inFlight[i := b];
    assert s.inFlight[i] in s.inFlight;
    assert forall a | a in after :: a == b || a in s.inFlight;
    assert Without(after, i) == Without(s.inFlight, i);
    forall j | 0 <= j < |s.history| ensures Older(after, j) == Older(s.inFlight, j) {
      OlderWithout(s.inFlight, i, j);
      OlderWithout(after, i, j);
      OlderOfOne(b, j);
      OlderOfOne(s.inFlight[i], j);
    }
  }

  lemma LeaveKeepsInv(s: State, i: nat, now: Millis, terms: Terms)
    requires Inv(s, terms) && i < |s.inFlight|
    ensures Sound(s.(clock := now, inFlight := Without(s.inFlight, i)), terms)
  {
    hide Recent, Older, Judged, Ordered;
    WithoutIsPart(s.inFlight, i);
    forall j | 0 <= j < |s.history|
      ensures Older(Without(s.inFlight, i), j) <= Older(s.inFlight, j)
    {
      OlderWithout(s.inFlight, i, j);
    }
  }

  lemma SucceedKeepsInv(s: State, inFlight: seq<Attempt>, terms: Terms)
    ensures Sound(s.(window := None, history := [], attempts := [], inFlight := inFlight), terms)
  {
  }

  lemma ClockIsIrrelevant(s: State, now: Millis, asking: seq<Millis>, terms: Terms)
    requires Sound(s, terms)
    ensures Sound(s.(clock := now, asking := asking), terms)
  {
    hide Recent, Older, Earned, Bunched, Respects;
  }

  lemma StepKeepsInv(s: State, a: Action, now: Millis, terms: Terms)
    requires Inv(s, terms) && terms.lag <= WINDOW_MS && |s.inFlight| <= terms.width
    requires Possible(s, a, now) && Prompt(s, a, now, terms)
    ensures Inv(Step(terms.base, s, a, now), terms)
  {
    hide Timely, Sound, Entered, Failed;
    StepKeepsTimely(s, a, now, terms);
    match a
    case Ask =>
      ClockIsIrrelevant(s, now, s.asking + [now], terms);
    case Enter(i) =>
      var stamp := StampOf(terms.base, s, s.asking[i], now);
      StampsAreLater(s, s.asking[i], now, terms);
      EnterKeepsInv(s, i, stamp, terms);
      ClockIsIrrelevant(Entered(s, i, stamp), now, Entered(s, i, stamp).asking, terms);
    case Supply(i) =>
      SupplyKeepsInv(s, i, now, terms);
    case Fail(i) =>
      var stamp := StampOf(terms.base, s, s.inFlight[i].reading.value, now);
      StampsAreLater(s, s.inFlight[i].reading.value, now, terms);
      FailKeepsInv(s, i, stamp, terms);
      ClockIsIrrelevant(Failed(s, i, stamp), now, Failed(s, i, stamp).asking, terms);
    case Succeed(i) =>
      SucceedKeepsInv(s.(clock := now), Restarted(Without(s.inFlight, i)), terms);
    case Leave(i) =>
      LeaveKeepsInv(s, i, now, terms);
  }

  lemma StampsAreLater(s: State, reading: Millis, now: Millis, terms: Terms)
    requires Timely(s, terms.lag) && s.clock <= now
    requires reading in s.asking || exists a | a in s.inFlight :: a.reading == Some(reading)
    ensures var stamp := StampOf(terms.base, s, reading, now); s.stamp <= stamp <= now && reading <= stamp
  {
    hide Ordered;
  }

  lemma {:induction false} RunKeepsInv(s: State, events: seq<Event>, t: State, terms: Terms)
    requires Inv(s, terms) && terms.lag <= WINDOW_MS && IsRun(s, events, t, terms)
    ensures Inv(t, terms)
    decreases |events|
  {
    hide Inv, Step, Possible, Prompt;
    if events != [] {
      var e := events[0];
      StepKeepsInv(s, e.action, e.now, terms);
      RunKeepsInv(Step(terms.base, s, e.action, e.now), events[1..], t, terms);
    }
  }

  // ---- the guarantees -----------------------------------------------------------------------------------

  lemma StartIsSound(clock: Millis, terms: Terms)
    ensures Timely(Initial(clock), terms.lag) && Sound(Initial(clock), terms)
  {
  }

  /**
   * The pruned state against the full history, when readings lag behind their stamps by at most `lag`: a
   * refusal is earned by `LIMIT` failures within a window, the last less than a lockout ago; and while the
   * last of `LIMIT` failures close enough together is less than a lockout and the lag ago, all are refused.
   */
  lemma DecidesWithinLag(clock: Millis, events: seq<Event>, s: State, terms: Terms, reading: Millis, now: Millis)
    requires IsRun(Initial(clock), events, s, terms) && terms.lag <= WINDOW_MS
    requires s.stamp <= now && reading <= now
    ensures IsLocked(s.window, reading) ==>
              exists i | 0 <= i < |s.history| :: Earned(s.history, i) && reading < s.history[i].at + LOCKOUT_MS
    ensures (exists i | 0 <= i < |s.history| :: Bunched(s.history, i, terms.lag) && now < LockedTo(s.history[i], terms.lag))
            ==> IsLocked(s.window, reading)
    ensures s.window.Some? ==> s.window.value.failures == Recent(ReadingsOf(s.history), s.prunedAt)
  {
    StartIsSound(clock, terms);
    RunKeepsInv(Initial(clock), events, s, terms);
    hide Recent, Timely, Honoured, Crowded, Earned, Bunched;
  }

  /** When readings are used in the order they were taken, the decision is exactly that of the full history. */
  lemma DecidesAsHistory(clock: Millis, events: seq<Event>, s: State, width: nat, reading: Millis)
    requires IsRun(Initial(clock), events, s, Terms(Readings, width, 0)) && s.stamp <= reading
    ensures var times := ReadingsOf(s.history);
            IsLocked(s.window, reading) <==>
            exists i | 0 <= i < |times| :: Trips(times, i) && reading < times[i] as int + 300_000
    ensures s.window.Some? ==> s.window.value.failures == Recent(ReadingsOf(s.history), s.prunedAt)
  {
    var terms, times := Terms(Readings, width, 0), ReadingsOf(s.history);
    DecidesWithinLag(clock, events, s, terms, reading, reading);
    StartIsSound(clock, terms);
    RunKeepsTimely(Initial(clock), events, s, terms);
    hide IsRun, IsLocked, Recent;
    forall i | 0 <= i < |times| ensures Trips(times, i) <==> Bunched(s.history, i, 0) {}
    forall i | 0 <= i < |times| && Earned(s.history, i) ensures Trips(times, i) {
      EarnedIsTrip(s.history, i);
    }
  }

  /** In order, a failure that earned the limit ends `LIMIT` failures within one window. */
  lemma EarnedIsTrip(history: seq<Failure>, i: nat)
    requires i < |history| && Earned(history, i) && Sorted(ReadingsOf(history))
    ensures Trips(ReadingsOf(history), i)
  {
    var before, now := ReadingsOf(history[..i]), history[i].at;
    assert forall j | 0 <= j < i :: before[j] == ReadingsOf(history)[j];
    var k := RecentIsSuffix(before, now);
    assert before[i + 1 - LIMIT] >= before[k];
  }

  /**
   * With at most `width` attempts in flight and readings at most `lag` behind, any `5 + width`
   * consecutive failures without a success between them span at least five minutes, less the lag.
   */
  lemma FailureRateIsBounded(clock: Millis, events: seq<Event>, s: State, terms: Terms, first: nat)
    requires IsRun(Initial(clock), events, s, terms) && terms.width > 0
    requires first + 5 + terms.width <= |s.history|
    ensures s.history[first + 4 + terms.width].stamp - s.history[first].stamp >= 300_000 - terms.lag
  {
    StartIsSound(clock, terms);
    RunKeepsTimely(Initial(clock), events, s, terms);
    var i, last := first + LIMIT - 1, first + LIMIT + terms.width - 1;
    assert s.history[first].stamp <= s.history[i].stamp <= s.history[last].stamp;
    if terms.lag <= WINDOW_MS && Bunched(s.history, i, terms.lag) {
      RunKeepsInv(Initial(clock), events, s, terms);
      hide Represents, Enforced, Crowded, Earned, IsRun;
      var j := SomeFailureSawTheTrip(s, i, terms.width);
      assert s.attempts[j] in s.attempts && s.history[i].limited;
      assert s.attempts[j].started >= LockedTo(s.history[i], terms.lag);
      assert s.history[last].stamp >= s.history[j].stamp >= s.attempts[j].started;
    }
  }

  /** Of `width` failures after failure `i` at least one was admitted after it. */
  lemma SomeFailureSawTheTrip(s: State, i: nat, width: nat) returns (j: nat)
    requires |s.attempts| == |s.history| && Crowded(s, width) && i + width < |s.history| && width > 0
    ensures i < j <= i + width && s.attempts[j].seen > i
  {
    var later := s.attempts[i + 1..i + 1 + width];
    assert s.attempts[i + 1..] == later + s.attempts[i + 1 + width..];
    OlderAppend(later, s.attempts[i + 1 + width..], i);
    OlderIsBounded(later, i);
    assert Older(s.attempts[i + 1..], i) + Older(s.inFlight, i) < width;
    var k :| 0 <= k < width && later[k].seen > i;
    j := i + 1 + k;
  }

  // ---- attempts one after another ---------------------------------------------------------------------------

  /** An attempt asks only when none is asking or in flight. */
  ghost predicate OneAtATime(start: State, events: seq<Event>)
    decreases |events|
  {
    events != [] ==>
      var e := events[0];
      && Possible(start, e.action, e.now)
      && (e.action.Ask? ==> start.asking == [] && start.inFlight == [])
      && OneAtATime(Step(Readings, start, e.action, e.now), events[1..])
  }

  function EndOf(start: State, events: seq<Event>): State
    requires OneAtATime(start, events)
    decreases |events|
  {
    if events == [] then start
    else EndOf(Step(Readings, start, events[0].action, events[0].now), events[1..])
  }

  /** Nobody is waiting with a reading that others have overtaken. */
  ghost predicate UpToDate(s: State) {
    && |s.asking| + |s.inFlight| <= 1 && s.stamp <= s.clock
    && (forall reading | reading in s.asking :: s.stamp <= reading <= s.clock)
    && (forall a | a in s.inFlight && a.reading.Some? :: s.stamp <= a.reading.value <= s.clock)
  }

  lemma {:induction false} OneAtATimeIsInOrder(s: State, events: seq<Event>)
    requires UpToDate(s) && OneAtATime(s, events)
    ensures IsRun(s, events, EndOf(s, events), Terms(Readings, 1, 0))
    decreases |events|
  {
    hide AfterAdmission, AfterFailure, IsLocked;
    if events != [] {
      OneStepInOrder(s, events[0].action, events[0].now);
      OneAtATimeIsInOrder(Step(Readings, s, events[0].action, events[0].now), events[1..]);
    }
  }

  lemma OneStepInOrder(s: State, a: Action, now: Millis)
    requires UpToDate(s) && Possible(s, a, now) && (a.Ask? ==> s.asking == [] && s.inFlight == [])
    ensures Prompt(s, a, now, Terms(Readings, 1, 0)) && UpToDate(Step(Readings, s, a, now))
  {
    hide AfterAdmission, AfterFailure, IsLocked;
    if a.Ask? {
      assert s.asking + [now] == [now];
    } else if a.Enter? {
      EnterInOrder(s, now);
    } else {
      assert s.inFlight[0] in s.inFlight;
      assert Without(s.inFlight, 0) == [] && s.asking == [];
      hide Failed;
      if a.Fail? { FailedInOrder(s, now); }
      assert a.Supply? ==> |s.inFlight[0 := s.inFlight[0].(reading := Some(now))]| == 1;
    }
  }

  lemma EnterInOrder(s: State, now: Millis)
    requires UpToDate(s) && Possible(s, Enter(0), now)
    ensures Prompt(s, Enter(0), now, Terms(Readings, 1, 0)) && UpToDate(Step(Readings, s, Enter(0), now))
  {
    hide AfterAdmission, IsLocked;
    assert s.asking[0] in s.asking && Without(s.asking, 0) == [] && s.inFlight == [];
    assert s.inFlight + [Attempt(s.asking[0], |s.history|, None)] == [Attempt(s.asking[0], |s.history|, None)];
  }

  lemma FailedInOrder(s: State, now: Millis)
    requires UpToDate(s) && s.clock <= now && s.inFlight != [] && s.inFlight[0].reading.Some?
    ensures Prompt(s, Fail(0), now, Terms(Readings, 1, 0)) && UpToDate(Step(Readings, s, Fail(0), now))
  {
    hide AfterFailure;
    assert s.inFlight[0] in s.inFlight && Without(s.inFlight, 0) == [] && s.asking == [];
  }

  /** One attempt after another, however long each call waits for the lock: any six failures are five minutes apart. */
  lemma SequentialFailureRate(clock: Millis, events: seq<Event>, first: nat)
    requires OneAtATime(Initial(clock), events)
    requires first + 5 < |EndOf(Initial(clock), events).history|
    ensures var times := ReadingsOf(EndOf(Initial(clock), events).history);
            times[first + 5] as int - times[first] >= 300_000
  {
    var terms, s := Terms(Readings, 1, 0), EndOf(Initial(clock), events);
    OneAtATimeIsInOrder(Initial(clock), events);
    FailureRateIsBounded(clock, events, s, terms, first);
    StartIsSound(clock, terms);
    RunKeepsTimely(Initial(clock), events, s, terms);
  }

  // ---- the bounds are the best ones ---------------------------------------------------------------------------

  lemma {:induction false} RunThenOne(start: State, events: seq<Event>, mid: State, a: Action, now: Millis, terms: Terms)
    requires IsRun(start, events, mid, terms) && Possible(mid, a, now) && Prompt(mid, a, now, terms)
    requires |Step(terms.base, mid, a, now).inFlight| <= terms.width
    ensures IsRun(start, events + [Event(a, now)], Step(terms.base, mid, a, now), terms)
    decreases |events|
  {
    hide Step, Possible, Prompt;
    var e := Event(a, now);
    if events == [] {
      assert (events + [e])[1..] == [];
    } else {
      assert (events + [e])[1..] == events[1..] + [e];
      RunThenOne(Step(terms.base, start, events[0].action, events[0].now), events[1..], mid, a, now, terms);
    }
  }

  lemma {:induction false} EndsNarrow(start: State, events: seq<Event>, end: State, terms: Terms)
    requires IsRun(start, events, end, terms)
    ensures |end.inFlight| <= terms.width
    decreases |events|
  {
    hide Step, Possible, Prompt;
    if events != [] {
      EndsNarrow(Step(terms.base, start, events[0].action, events[0].now), events[1..], end, terms);
    }
  }

  /** Nobody is asking, and the clock is not past `now`. */
  ghost predicate Calm(s: State, now: Millis) { s.asking == [] && s.clock <= now && s.stamp <= now }

  /** An attempt arrives and is admitted at `now`. */
  lemma AdmitAt(start: State, events: seq<Event>, s: State, now: Millis, terms: Terms) returns (more: seq<Event>, end: State)
    requires IsRun(start, events, s, terms) && Calm(s, now) && !IsLocked(s.window, now) && |s.inFlight| < terms.width
    ensures IsRun(start, more, end, terms) && Calm(end, now)
    ensures end.inFlight == s.inFlight + [Attempt(now, |s.history|, None)]
    ensures end.window == AfterAdmission(s.window, now) && end.history == s.history
  {
    hide IsRun, AfterAdmission;
    var asked := Step(terms.base, s, Ask, now);
    RunThenOne(start, events, s, Ask, now, terms);
    assert asked.asking == [now] && Without(asked.asking, 0) == [];
    end := Step(terms.base, asked, Enter(0), now);
    more := events + [Event(Ask, now)] + [Event(Enter(0), now)];
    RunThenOne(start, events + [Event(Ask, now)], asked, Enter(0), now, terms);
  }

  /** Attempt `i` in flight reads the clock at `now`. */
  lemma SupplyAt(start: State, events: seq<Event>, s: State, i: nat, now: Millis, terms: Terms)
    returns (more: seq<Event>, end: State)
    requires IsRun(start, events, s, terms) && Calm(s, now) && i < |s.inFlight| && s.inFlight[i].reading.None?
    ensures IsRun(start, more, end, terms)
    ensures end == s.(clock := now, inFlight := s.inFlight[i := s.inFlight[i].(reading := Some(now))])
  {
    EndsNarrow(start, events, s, terms);
    hide IsRun;
    RunThenOne(start, events, s, Supply(i), now, terms);
    more, end := events + [Event(Supply(i), now)], Step(terms.base, s, Supply(i), now);
  }

  /** Attempt `i` in flight, with its reading, takes the lock at `now`. */
  lemma RecordAt(start: State, events: seq<Event>, s: State, i: nat, now: Millis, terms: Terms)
    returns (more: seq<Event>, end: State)
    requires IsRun(start, events, s, terms) && Calm(s, now) && i < |s.inFlight| && s.inFlight[i].reading.Some?
    requires var reading := s.inFlight[i].reading.value; reading <= now <= reading + terms.lag
    requires terms.base == WallClock || s.inFlight[i].reading == Some(now)
    ensures IsRun(start, more, end, terms) && Calm(end, now) && end.inFlight == Without(s.inFlight, i)
    ensures var reading := s.inFlight[i].reading.value;
            && end.window == Some(AfterFailure(s.window, reading))
            && |end.history| == |s.history| + 1 && end.history[..|s.history|] == s.history
            && end.history[|s.history|].at == reading && end.history[|s.history|].stamp == now
  {
    EndsNarrow(start, events, s, terms);
    hide IsRun, AfterFailure;
    RunThenOne(start, events, s, Fail(i), now, terms);
    more, end := events + [Event(Fail(i), now)], Step(terms.base, s, Fail(i), now);
  }

  /** The last attempt in flight fails at `now`. */
  lemma FailAt(start: State, events: seq<Event>, s: State, now: Millis, terms: Terms) returns (more: seq<Event>, end: State)
    requires IsRun(start, events, s, terms) && Calm(s, now) && s.inFlight != []
    requires s.inFlight[|s.inFlight| - 1].reading.None?
    ensures IsRun(start, more, end, terms) && Calm(end, now) && end.inFlight == s.inFlight[..|s.inFlight| - 1]
    ensures end.window == Some(AfterFailure(s.window, now))
    ensures |end.history| == |s.history| + 1 && end.history[..|s.history|] == s.history
    ensures end.history[|s.history|].at == end.history[|s.history|].stamp == now
  {
    hide IsRun, AfterFailure;
    var i := |s.inFlight| - 1;
    var events1, s1 := SupplyAt(start, events, s, i, now, terms);
    more, end := RecordAt(start, events1, s1, i, now, terms);
    assert Without(s1.inFlight, i) == s.inFlight[..i];
  }

  /** A history of failures all at one instant. */
  ghost predicate Burst(history: seq<Failure>, t: Millis, n: nat) {
    |history| == n && forall i | 0 <= i < n :: history[i].at == history[i].stamp == t
  }

  function WindowAfter(t: Millis, n: nat): Option<Window> {
    if n == 0 then None
    else Some(Window(seq(n, _ => t), if n >= LIMIT then Some(t + LOCKOUT_MS) else None))
  }

  lemma OneMoreAt(t: Millis, n: nat)
    requires n < LIMIT
    ensures !IsLocked(WindowAfter(t, n), t) && AfterAdmission(WindowAfter(t, n), t) == WindowAfter(t, n)
    ensures Some(AfterFailure(WindowAfter(t, n), t)) == WindowAfter(t, n + 1)
  {
    var before: seq<Millis> := seq(n, _ => t);
    ClampIsExact(t, t);
    AllRecent(before, t);
    assert before + [t] == seq(n + 1, _ => t);
    assert Recent([], t) == [];
  }

  /** Failures one after another at one instant, up to the limit, while other attempts are in flight. */
  lemma {:induction false} FailInTurn(start: State, events: seq<Event>, s: State, t: Millis, n: nat, terms: Terms)
    returns (more: seq<Event>, end: State)
    requires IsRun(start, events, s, terms) && Calm(s, t) && |s.inFlight| < terms.width
    requires s.window == None && s.history == [] && n <= LIMIT
    ensures IsRun(start, more, end, terms) && Calm(end, t) && end.inFlight == s.inFlight
    ensures Burst(end.history, t, n) && end.window == WindowAfter(t, n)
    decreases n
  {
    if n == 0 {
      more, end := events, s;
    } else {
      hide IsRun, AfterFailure, AfterAdmission, WindowAfter, IsLocked;
      var events0, s0 := FailInTurn(start, events, s, t, n - 1, terms);
      OneMoreAt(t, n - 1);
      var events1, s1 := AdmitAt(start, events0, s0, t, terms);
      more, end := FailAt(start, events1, s1, t, terms);
      assert end.inFlight == s.inFlight;
      assert end.history == s0.history + [end.history[n - 1]];
    }
  }

  lemma {:induction false} AdmitMany(t: Millis, k: nat, terms: Terms) returns (events: seq<Event>, s: State)
    requires 0 < terms.width && k <= terms.width
    ensures IsRun(Initial(t), events, s, terms) && Calm(s, t) && |s.inFlight| == k
    ensures Burst(s.history, t, LIMIT - 1) && s.window == WindowAfter(t, LIMIT - 1)
    ensures forall a | a in s.inFlight :: a.reading.None?
  {
    if k == 0 {
      events, s := FailInTurn(Initial(t), [], Initial(t), t, LIMIT - 1, terms);
    } else {
      hide IsRun, AfterAdmission, WindowAfter, IsLocked;
      var events0, s0 := AdmitMany(t, k - 1, terms);
      OneMoreAt(t, LIMIT - 1);
      events, s := AdmitAt(Initial(t), events0, s0, t, terms);
    }
  }

  /** Attempts in flight together can all fail at one instant: one failure fewer than the bound needs no time at all. */
  lemma {:induction false} RateBoundIsTight(t: Millis, k: nat, terms: Terms) returns (events: seq<Event>, s: State)
    requires terms.width > 0 && k <= terms.width
    ensures IsRun(Initial(t), events, s, terms) && Calm(s, t) && |s.inFlight| == terms.width - k
    ensures |s.history| == LIMIT + k - 1 && Burst(s.history, t, LIMIT + k - 1)
    ensures forall a | a in s.inFlight :: a.reading.None?
    decreases k
  {
    hide IsRun, AfterFailure, WindowAfter;
    if k == 0 {
      events, s := AdmitMany(t, terms.width, terms);
    } else {
      var events0, s0 := RateBoundIsTight(t, k - 1, terms);
      assert s0.inFlight[|s0.inFlight| - 1] in s0.inFlight;
      events, s := FailAt(Initial(t), events0, s0, t, terms);
      assert s.history == s0.history + [s.history[|s0.history|]];
    }
  }

  /**
   * A stale failure shortens a lockout: one attempt reads the clock, five others fail and start a lockout, and
   * when the first one gets the lock it moves the end of the lockout back to its own reading's.
   */
  lemma StaleFailureShortensLockout(t: Millis, lag: nat) returns (events: seq<Event>, s: State)
    requires -CLOCK_MAX <= t - lag && lag <= LOCKOUT_MS
    ensures IsRun(Initial(t - lag), events, s, Terms(WallClock, 2, lag)) && Calm(s, t) && s.inFlight == []
    ensures |s.history| == LIMIT + 1 && Burst(s.history[..LIMIT], t, LIMIT)
    ensures s.history[LIMIT].at == t - lag && Trips(ReadingsOf(s.history), LIMIT - 1)
    ensures s.window.Some? && s.window.value.lockedUntil == Some(t - lag + LOCKOUT_MS)
  {
    var terms, early := Terms(WallClock, 2, lag), t - lag;
    var start := Initial(early);
    var events1, s1 := AdmitAt(start, [], start, early, terms);
    var events2, s2 := SupplyAt(start, events1, s1, 0, early, terms);
    hide IsRun, IsLocked, AfterAdmission;
    var events3, s3 := FailInTurn(start, events2, s2, t, LIMIT, terms);
    assert s3.inFlight[0].reading == Some(early);
    hide AfterFailure, WindowAfter;
    events, s := RecordAt(start, events3, s3, 0, t, terms);
    StaleWindow(t, early);
    BurstTrips(s.history, t);
  }

  lemma BurstTrips(history: seq<Failure>, t: Millis)
    requires |history| > LIMIT && Burst(history[..LIMIT], t, LIMIT)
    ensures Trips(ReadingsOf(history), LIMIT - 1)
  {
    assert forall i | 0 <= i < LIMIT :: history[i] == history[..LIMIT][i];
  }

  lemma StaleWindow(t: Millis, early: Millis)
    requires early <= t
    ensures AfterFailure(WindowAfter(t, LIMIT), early).lockedUntil == Some(early + LOCKOUT_MS)
  {
    var before: seq<Millis> := seq(LIMIT, _ => t);
    ClampIsExact(early, early);
    AllRecent(before, early);
  }

  /** The lag in the bound is needed: seven failures, two attempts in flight at most, a lockout less the lag apart. */
  lemma LagBoundIsReached(t: Millis, lag: nat) returns (events: seq<Event>, s: State)
    requires -CLOCK_MAX <= t - lag && t + LOCKOUT_MS <= CLOCK_MAX && lag <= LOCKOUT_MS
    ensures IsRun(Initial(t - lag), events, s, Terms(WallClock, 2, lag)) && |s.history| == 7
    ensures s.history[6].stamp - s.history[0].stamp == 300_000 - lag
  {
    var terms, over := Terms(WallClock, 2, lag), t - lag + LOCKOUT_MS;
    var events0, s0 := StaleFailureShortensLockout(t, lag);
    hide IsRun, AfterFailure, AfterAdmission;
    var events1, s1 := AdmitAt(Initial(t - lag), events0, s0, over, terms);
    events, s := FailAt(Initial(t - lag), events1, s1, over, terms);
    assert s.history[0] == s0.history[..LIMIT][0];
  }
}
