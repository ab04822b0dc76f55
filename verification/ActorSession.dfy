/**
 * The single actor of the ZeroMQ data plane (`run_zmq_data_plane_actor`): it drops work
 * its caller has given up on, opens and loses sessions, and gives a new session the
 * identity of the service. The SDK is an oracle that lets each of its calls succeed or fail.
 */
module ActorSession {
  import opened Wrappers

  // ---- requests and what comes of them ---------------------------------------------------------

  /** What an update changes; JSON values are opaque. */
  datatype Profile = Profile(displayName: string, capabilities: seq<string>, metadata: map<string, string>)

  /** `RchServiceIdentityConfig`. */
  datatype Identity = Identity(privateKey: seq<nat>, profile: Profile)

  datatype Payload =
    | RegisterIdentity(identity: Identity)
    | UpdateIdentity(profile: Profile)
    | Shutdown
    | Other(what: string)  // sends, status, announce, events, history: they leave the identity alone

  /** `queuedAt` in nanoseconds on the actor's clock. */
  datatype Request = Request(id: nat, payload: Payload, queuedAt: int)

  datatype Error = Sdk(code: string) | NotRegistered | Unavailable

  datatype Outcome = Done | Failed(error: Error)

  /** What the SDK does while a request is handled: none for success, or the code of its error. */
  datatype Oracle = Oracle(open: Option<string>, restore: Option<string>, work: Option<string>)

  /** A request as the actor meets it: taken from its lane at `now`. */
  datatype Job = Job(request: Request, now: int, sdk: Oracle)

  datatype Response = Response(request: Request, outcome: Outcome)

  datatype Session = Session(identity: Option<Identity>)

  datatype Actor = Actor(
    session: Option<Session>,
    serviceIdentity: Option<Identity>,
    dequeued: nat,
    expired: nat,
    completed: nat,
    failed: nat,
    responses: seq<Response>,
    running: bool)

  const STARTED := Actor(None, None, 0, 0, 0, 0, [], true)

  // ---- expiry ----------------------------------------------------------------------------------

  /** How long the caller of `request` waits for its response, in `recv_timeout`. */
  function ReceiveTimeout(requestTimeout: nat): nat { Min(requestTimeout + SECOND, DURATION_MAX) }

  /** `Instant::elapsed`, zero for an instant to come. */
  function Elapsed(since: int, now: int): nat { if now < since then 0 else Min(now - since, DURATION_MAX) }

  predicate Expired(job: Job, requestTimeout: nat) {
    Elapsed(job.request.queuedAt, job.now) >= ReceiveTimeout(requestTimeout)
  }

  /** A caller that starts to wait at `from`, after it queued the request, is still waiting for whatever is not dropped. */
  lemma ExpiryIsTheDeadline(job: Job, requestTimeout: nat, from: int)
    requires job.request.queuedAt <= from
    ensures Expired(job, requestTimeout) <==>
              job.now >= job.request.queuedAt + Min(requestTimeout + 1_000_000_000, DURATION_MAX)
    ensures !Expired(job, requestTimeout) ==> job.now < from + Min(requestTimeout + 1_000_000_000, DURATION_MAX)
  {
  }

  // ---- one request -------------------------------------------------------------------------------

  /** `record_result` and `send_actor_response`. */
  function Answered(a: Actor, request: Request, outcome: Outcome): Actor {
    var counted := if outcome.Done? then a.(completed := a.completed + 1) else a.(failed := a.failed + 1);
    counted.(responses := a.responses + [Response(request, outcome)])
  }

  function Attempt(error: Option<string>): Outcome {
    if error.Some? then Failed(Sdk(error.value)) else Done
  }

  /** Opens a session and restores the identity in it; a failure leaves no session. */
  function Opened(a: Actor, job: Job): (Actor, Outcome) {
    if job.sdk.open.Some? then (a, Attempt(job.sdk.open))
    else if a.serviceIdentity.None? then (a.(session := Some(Session(None))), Done)
    else if job.sdk.restore.Some? then (a, Attempt(job.sdk.restore))
    else (a.(session := Some(Session(a.serviceIdentity))), Done)
  }

  /** `send_lxmf_zmq_actor_request`: the session afterwards, and the outcome. */
  function Performed(session: Session, payload: Payload, work: Option<string>): (Session, Outcome) {
    match payload
    case RegisterIdentity(identity) =>
      if work.Some? then (session, Attempt(work)) else (Session(Some(identity)), Done)
    case UpdateIdentity(profile) =>
      if session.identity.None? then (session, Failed(NotRegistered))
      else if work.Some? then (session, Attempt(work))
      else (Session(Some(session.identity.value.(profile := profile))), Done)
    case Shutdown => (session, Done)
    case Other(_) => (session, Attempt(work))
  }

  /** The service identity if the request succeeds. */
  function IdentityAfterRequest(service: Option<Identity>, payload: Payload): Option<Identity> {
    match payload
    case RegisterIdentity(identity) => Some(identity)
    case UpdateIdentity(profile) => if service.None? then None else Some(service.value.(profile := profile))
    case Shutdown => None
    case Other(_) => None
  }

  /** The part of the loop that needs a session. */
  function Served(a: Actor, job: Job): Actor {
    if a.session.None? then Answered(a, job.request, Failed(Unavailable))
    else
      var (session, outcome) := Performed(a.session.value, job.request.payload, job.sdk.work);
      var wanted := IdentityAfterRequest(a.serviceIdentity, job.request.payload);
      var service := if outcome.Done? && wanted.Some? then wanted else a.serviceIdentity;
      var answered := Answered(a, job.request, outcome);
      answered.(
        session := if outcome.Done? then Some(session) else None,
        serviceIdentity := service,
        running := !job.request.payload.Shutdown?)
  }

  function Handled(a: Actor, job: Job, requestTimeout: nat): Actor {
    var taken := a.(dequeued := a.dequeued + 1);
    if Expired(job, requestTimeout) then taken.(expired := a.expired + 1)
    else if job.request.payload.Shutdown? && a.session.None? then
      Answered(taken, job.request, Done).(running := false)
    else if a.session.None? then
      var (reopened, outcome) := Opened(taken, job);
      if outcome.Failed? then Answered(reopened, job.request, outcome) else Served(reopened, job)
    else Served(taken, job)
  }

  /** The loop, until a Shutdown ends it. */
  function Run(a: Actor, jobs: seq<Job>, requestTimeout: nat): Actor
    decreases |jobs|
  {
    if jobs == [] || !a.running then a else Run(Handled(a, jobs[0], requestTimeout), jobs[1..], requestTimeout)
  }

  // ---- the loop itself ------------------------------------------------------------------------------

  class DataPlaneActor {
    const requestTimeout: nat
    var session: Option<Session>
    var serviceIdentity: Option<Identity>
    var dequeued: nat
    var expired: nat
    var completed: nat
    var failed: nat
    var responses: seq<Response>

    constructor (requestTimeout: nat)
      ensures this.requestTimeout == requestTimeout && Value(true) == STARTED
    {
      this.requestTimeout := requestTimeout;
      session, serviceIdentity, responses := None, None, [];
      dequeued, expired, completed, failed := 0, 0, 0, 0;
    }

    ghost function Value(running: bool): Actor
      reads this
    {
      Actor(session, serviceIdentity, dequeued, expired, completed, failed, responses, running)
    }

    method Answer(request: Request, outcome: Outcome)
      modifies this`completed, this`failed, this`responses
      ensures forall running :: Value(running) == Answered(old(Value(running)), request, outcome)
    {
      if outcome.Done? {
        completed := completed + 1;
      } else {
        failed := failed + 1;
      }
      responses := responses + [Response(request, outcome)];
    }

    method Open(job: Job) returns (outcome: Outcome)
      modifies this`session
      ensures forall running :: (Value(running), outcome) == Opened(old(Value(running)), job)
    {
      if job.sdk.open.Some? {
        return Failed(Sdk(job.sdk.open.value));
      }
      var reopened := Session(None);
      if serviceIdentity.Some? {
        if job.sdk.restore.Some? {
          return Failed(Sdk(job.sdk.restore.value));
        }
        reopened := Session(serviceIdentity);
      }
      session := Some(reopened);
      outcome := Done;
    }

    /** Remembers the identity in the open session once the SDK has taken it. */
    method RegisterInSession(identity: Identity, work: Option<string>) returns (outcome: Outcome)
      modifies this`session
      ensures outcome == Attempt(work)
      ensures session == if work.None? then Some(Session(Some(identity))) else old(session)
    {
      if work.Some? {
        return Failed(Sdk(work.value));
      }
      session := Some(Session(Some(identity)));
      outcome := Done;
    }

    method SendActorRequest(payload: Payload, work: Option<string>) returns (outcome: Outcome)
      requires session.Some?
      modifies this`session
      ensures session.Some? && (session.value, outcome) == Performed(old(session.value), payload, work)
    {
      match payload {
        case RegisterIdentity(identity) =>
          outcome := RegisterInSession(identity, work);
        case UpdateIdentity(profile) =>
          if session.value.identity.None? {
            return Failed(NotRegistered);
          }
          outcome := RegisterInSession(session.value.identity.value.(profile := profile), work);
        case Shutdown =>
          outcome := Done;
        case Other(_) =>
          outcome := Attempt(work);
      }
    }

    method Serve(job: Job) returns (running: bool)
      modifies this
      ensures Value(running) == Served(old(Value(true)), job)
    {
      if session.None? {
        Answer(job.request, Failed(Unavailable));
        return true;
      }
      var identityAfterRequest: Option<Identity> := None;
      match job.request.payload {
        case RegisterIdentity(identity) =>
          identityAfterRequest := Some(identity);
        case UpdateIdentity(profile) =>
          if serviceIdentity.Some? {
            identityAfterRequest := Some(serviceIdentity.value.(profile := profile));
          }
        case Shutdown =>
        case Other(_) =>
      }
      var outcome := SendActorRequest(job.request.payload, job.sdk.work);
      if outcome.Done? && identityAfterRequest.Some? {
        serviceIdentity := identityAfterRequest;
      }
      if outcome.Failed? {
        session := None;
      }
      Answer(job.request, outcome);
      running := !job.request.payload.Shutdown?;
    }

    method Handle(job: Job) returns (running: bool)
      modifies this
      ensures Value(running) == Handled(old(Value(true)), job, requestTimeout)
    {
      dequeued := dequeued + 1;
      if Expired(job, requestTimeout) {
        expired := expired + 1;
        return true;
      }
      if job.request.payload.Shutdown? && session.None? {
        Answer(job.request, Done);
        return false;
      }
      if session.None? {
        var reopened := Open(job);
        if reopened.Failed? {
          Answer(job.request, reopened);
          return true;
        }
      }
      running := Serve(job);
    }

    /** Handles what the lanes yield until they end or a Shutdown does. */
    method Loop(jobs: seq<Job>) returns (running: bool)
      modifies this
      ensures Value(running) == Run(old(Value(true)), jobs, requestTimeout)
    {
      hide Handled;
      running := true;
      var i := 0;
      while i < |jobs| && running
        invariant 0 <= i <= |jobs|
        invariant Run(Value(running), jobs[i..], requestTimeout) == Run(old(Value(true)), jobs, requestTimeout)
      {
        running := Handle(jobs[i]);
        i := i + 1;
      }
    }
  }

  // ---- what each step keeps ----------------------------------------------------------------------------

  function CountDone(responses: seq<Response>): nat {
    if responses == [] then 0
    else CountDone(responses[..|responses| - 1]) + if responses[|responses| - 1].outcome.Done? then 1 else 0
  }

  /** The key of the last successful registration. */
  function LastKey(responses: seq<Response>): Option<seq<nat>> {
    if responses == [] then None
    else
      var last := responses[|responses| - 1];
      if last.outcome.Done? && last.request.payload.RegisterIdentity? then Some(last.request.payload.identity.privateKey)
      else LastKey(responses[..|responses| - 1])
  }

  /** The profile of the last successful registration or update. */
  function LastProfile(responses: seq<Response>): Option<Profile> {
    if responses == [] then None
    else
      var last := responses[|responses| - 1];
      if last.outcome.Done? && last.request.payload.RegisterIdentity? then Some(last.request.payload.identity.profile)
      else if last.outcome.Done? && last.request.payload.UpdateIdentity? then Some(last.request.payload.profile)
      else LastProfile(responses[..|responses| - 1])
  }

  /** The identity that the responses say was registered and updated. */
  function IdentityIn(responses: seq<Response>): Option<Identity> {
    match (LastKey(responses), LastProfile(responses))
    case (Some(key), Some(profile)) => Some(Identity(key, profile))
    case (_, _) => None
  }

  /** Every request taken is accounted for once, and nobody was told there is no session. */
  ghost predicate Accounted(a: Actor) {
    && a.dequeued == a.expired + a.completed + a.failed
    && a.completed == CountDone(a.responses)
    && a.completed + a.failed == |a.responses|
    && forall r | r in a.responses :: r.outcome != Failed(Unavailable)
  }

  /** The service identity is that of the responses, and an open session has it. */
  ghost predicate IdentityKept(a: Actor) {
    && (a.session.Some? ==> a.session.value.identity == a.serviceIdentity)
    && LastKey(a.responses).Some? == LastProfile(a.responses).Some?
    && a.serviceIdentity == IdentityIn(a.responses)
  }

  lemma ResponseAdded(responses: seq<Response>, r: Response)
    ensures var more := responses + [r];
            && CountDone(more) == CountDone(responses) + (if r.outcome.Done? then 1 else 0)
            && LastKey(more) == (if r.outcome.Done? && r.request.payload.RegisterIdentity?
                                 then Some(r.request.payload.identity.privateKey) else LastKey(responses))
            && LastProfile(more) == (if r.outcome.Done? && r.request.payload.RegisterIdentity?
                                     then Some(r.request.payload.identity.profile)
                                     else if r.outcome.Done? && r.request.payload.UpdateIdentity?
                                     then Some(r.request.payload.profile) else LastProfile(responses))
  {
    assert (responses + [r])[..|responses|] == responses;
  }

  lemma ServingKeeps(a: Actor, job: Job)
    requires IdentityKept(a) && a.session.Some?
    ensures IdentityKept(Served(a, job))
    ensures Served(a, job).responses[|a.responses|].outcome != Failed(Unavailable)
  {
    hide LastKey, LastProfile, CountDone;
    ResponseAdded(a.responses, Served(a, job).responses[|a.responses|]);
  }

  lemma HandlingKeepsIdentity(a: Actor, job: Job, requestTimeout: nat)
    requires IdentityKept(a)
    ensures var b := Handled(a, job, requestTimeout);
            && IdentityKept(b)
            && (!Expired(job, requestTimeout) ==> b.responses[|a.responses|].outcome != Failed(Unavailable))
  {
    hide LastKey, LastProfile, CountDone, Served, Expired;
    var b := Handled(a, job, requestTimeout);
    var taken := a.(dequeued := a.dequeued + 1);
    if !Expired(job, requestTimeout) {
      if !job.request.payload.Shutdown? && a.session.None? {
        var (reopened, outcome) := Opened(taken, job);
        if outcome.Done? {
          ServingKeeps(reopened, job);
        } else {
          ResponseAdded(a.responses, Response(job.request, outcome));
        }
      } else if a.session.Some? {
        ServingKeeps(taken, job);
      } else {
        ResponseAdded(a.responses, Response(job.request, Done));
      }
    }
  }

  /** One response and one count. */
  ghost predicate OneAnswer(a: Actor, b: Actor, request: Request) {
    && |b.responses| == |a.responses| + 1
    && b.responses == a.responses + [Response(request, b.responses[|a.responses|].outcome)]
    && b.completed == a.completed + (if b.responses[|a.responses|].outcome.Done? then 1 else 0)
    && b.failed == a.failed + (if b.responses[|a.responses|].outcome.Done? then 0 else 1)
    && b.dequeued == a.dequeued && b.expired == a.expired
  }

  lemma ServingAnswersOnce(a: Actor, job: Job)
    ensures OneAnswer(a, Served(a, job), job.request)
  {
    hide Performed;
  }

  /** What one request adds: nothing when expired, otherwise one response and one count. */
  lemma HandlingAdds(a: Actor, job: Job, requestTimeout: nat)
    ensures var b := Handled(a, job, requestTimeout);
            && b.dequeued == a.dequeued + 1
            && b.expired == a.expired + (if Expired(job, requestTimeout) then 1 else 0)
            && (Expired(job, requestTimeout) ==> b == a.(dequeued := b.dequeued, expired := b.expired))
            && (!Expired(job, requestTimeout) ==> OneAnswer(a.(dequeued := b.dequeued), b, job.request))
  {
    var taken := a.(dequeued := a.dequeued + 1);
    ServingAnswersOnce(taken, job);
    ServingAnswersOnce(Opened(taken, job).0, job);
    hide Served, Expired;
  }

  lemma HandlingKeeps(a: Actor, job: Job, requestTimeout: nat)
    requires Accounted(a) && IdentityKept(a)
    ensures Accounted(Handled(a, job, requestTimeout)) && IdentityKept(Handled(a, job, requestTimeout))
  {
    hide Handled, LastKey, LastProfile, CountDone, Expired, IdentityKept;
    HandlingKeepsIdentity(a, job, requestTimeout);
    HandlingAdds(a, job, requestTimeout);
    var b := Handled(a, job, requestTimeout);
    if !Expired(job, requestTimeout) {
      var added := b.responses[|a.responses|];
      ResponseAdded(a.responses, added);
      assert forall r :: r in b.responses <==> r in a.responses || r == added;
    }
  }

  // ---- whole runs ------------------------------------------------------------------------------------------

  predicate Stops(job: Job, requestTimeout: nat) { job.request.payload.Shutdown? && !Expired(job, requestTimeout) }

  /** The jobs up to the first Shutdown that has not expired, which are the ones taken. */
  function TakenOf(jobs: seq<Job>, requestTimeout: nat): seq<Job> {
    if jobs == [] then [] else if Stops(jobs[0], requestTimeout) then [jobs[0]]
    else [jobs[0]] + TakenOf(jobs[1..], requestTimeout)
  }

  /** The requests whose callers are still waiting when they are taken. */
  function InTime(jobs: seq<Job>, requestTimeout: nat): seq<Request> {
    if jobs == [] then []
    else (if Expired(jobs[0], requestTimeout) then [] else [jobs[0].request]) + InTime(jobs[1..], requestTimeout)
  }

  function Requests(responses: seq<Response>): (rs: seq<Request>)
    ensures |rs| == |responses|
  {
    seq(|responses|, i requires 0 <= i < |responses| => responses[i].request)
  }

  lemma OneStep(a: Actor, job: Job, requestTimeout: nat)
    requires a.running
    ensures var b := Handled(a, job, requestTimeout);
            && b.running == !Stops(job, requestTimeout)
            && b.dequeued == a.dequeued + 1
            && Requests(b.responses) == Requests(a.responses) + (if Expired(job, requestTimeout) then [] else [job.request])
  {
    hide Performed, Expired;
    HandlingAdds(a, job, requestTimeout);
    if Expired(job, requestTimeout) {
      assert Requests(a.responses) + [] == Requests(a.responses);
    }
  }

  /**
   * In every run exactly the requests up to the first Shutdown in time are taken; those in
   * time get one response each, in order, the expired ones get none; the counters add up.
   */
  lemma {:induction false} OutcomesAreAccounted(a: Actor, jobs: seq<Job>, requestTimeout: nat)
    requires a.running && Accounted(a) && IdentityKept(a)
    ensures var b, taken := Run(a, jobs, requestTimeout), TakenOf(jobs, requestTimeout);
            && Accounted(b) && IdentityKept(b)
            && b.dequeued == a.dequeued + |taken|
            && Requests(b.responses) == Requests(a.responses) + InTime(taken, requestTimeout)
            && (b.running <==> forall job | job in jobs :: !Stops(job, requestTimeout))
    decreases |jobs|
  {
    hide Handled, Accounted, IdentityKept, Expired, Requests;
    if jobs == [] {
      assert Requests(a.responses) + [] == Requests(a.responses);
    } else {
      var job, rest := jobs[0], jobs[1..];
      var next := Handled(a, job, requestTimeout);
      var now := if Expired(job, requestTimeout) then [] else [job.request];
      HandlingKeeps(a, job, requestTimeout);
      OneStep(a, job, requestTimeout);
      if Stops(job, requestTimeout) {
        assert InTime([job], requestTimeout) == now + [];
        assert now + [] == now;
      } else {
        OutcomesAreAccounted(next, rest, requestTimeout);
        assert TakenOf(jobs, requestTimeout)[1..] == TakenOf(rest, requestTimeout);
        Assoc(Requests(a.responses), now, InTime(TakenOf(rest, requestTimeout), requestTimeout));
        assert forall j :: j in jobs <==> j == job || j in rest;
      }
    }
  }

  lemma StartIsAccounted()
    ensures Accounted(STARTED)
    ensures STARTED.running && STARTED.dequeued == 0 && Requests(STARTED.responses) == []
  {
  }

  lemma StartKeepsIdentity()
    ensures IdentityKept(STARTED)
  {
  }

  /** The same from the start, with the identity spelled out. */
  lemma IdentitySurvives(jobs: seq<Job>, requestTimeout: nat)
    ensures var b := Run(STARTED, jobs, requestTimeout);
            && b.dequeued == |TakenOf(jobs, requestTimeout)| == b.expired + |b.responses|
            && Requests(b.responses) == InTime(TakenOf(jobs, requestTimeout), requestTimeout)
            && (b.session.Some? ==> b.session.value.identity == b.serviceIdentity)
            && b.serviceIdentity == IdentityIn(b.responses)
            && (b.serviceIdentity.Some? <==> LastKey(b.responses).Some?)
  {
    hide *;
    StartIsAccounted();
    StartKeepsIdentity();
    OutcomesAreAccounted(STARTED, jobs, requestTimeout);
    var b := Run(STARTED, jobs, requestTimeout);
    KeptMeans(b);
    var rs := InTime(TakenOf(jobs, requestTimeout), requestTimeout);
    assert [] + rs == rs;
  }

  lemma KeptMeans(a: Actor)
    requires Accounted(a) && IdentityKept(a)
    ensures a.dequeued == a.expired + |a.responses|
    ensures a.session.Some? ==> a.session.value.identity == a.serviceIdentity
    ensures a.serviceIdentity == IdentityIn(a.responses)
    ensures a.serviceIdentity.Some? <==> LastKey(a.responses).Some?
  {
  }

  /** A failure loses the session; a success leaves one open, except for a Shutdown without any. */
  lemma SessionFollowsOutcome(a: Actor, job: Job, requestTimeout: nat)
    requires !Expired(job, requestTimeout)
    ensures var b := Handled(a, job, requestTimeout);
            && |b.responses| == |a.responses| + 1
            && (b.session.Some? <==>
                  b.responses[|a.responses|].outcome.Done? && !(job.request.payload.Shutdown? && a.session.None?))
  {
  }

  /**
   * What every request comes to, in every state: expired ones to nothing, the others to one response that
   * opening a session, restoring the identity in it and the SDK's work decide, in this order.
   */
  lemma EveryOutcomeIsDecided(a: Actor, job: Job, requestTimeout: nat)
    requires IdentityKept(a)
    ensures var b, payload, sdk := Handled(a, job, requestTimeout), job.request.payload, job.sdk;
            b.responses == a.responses +
              if Expired(job, requestTimeout) then []
              else [Response(job.request,
                if payload.Shutdown? then Done
                else if a.session.None? && sdk.open.Some? then Failed(Sdk(sdk.open.value))
                else if a.session.None? && a.serviceIdentity.Some? && sdk.restore.Some? then Failed(Sdk(sdk.restore.value))
                else if payload.UpdateIdentity? && a.serviceIdentity.None? then Failed(NotRegistered)
                else if sdk.work.Some? then Failed(Sdk(sdk.work.value))
                else Done)]
  {
    assert a.responses + [] == a.responses;
  }

  /** What a successful request leaves behind: the identity it asked for, in the session and remembered. */
  lemma SuccessTakesEffect(a: Actor, job: Job, requestTimeout: nat)
    requires IdentityKept(a) && !Expired(job, requestTimeout)
    requires Handled(a, job, requestTimeout).responses[|a.responses|].outcome.Done?
    ensures var b, payload := Handled(a, job, requestTimeout), job.request.payload;
            && (payload.RegisterIdentity? ==>
                  b.serviceIdentity == Some(payload.identity) && b.session == Some(Session(Some(payload.identity))))
            && (payload.UpdateIdentity? ==>
                  && a.serviceIdentity.Some?
                  && b.serviceIdentity == Some(Identity(a.serviceIdentity.value.privateKey, payload.profile))
                  && b.session == Some(Session(b.serviceIdentity)))
            && (payload.Other? ==> b.serviceIdentity == a.serviceIdentity && b.session == Some(Session(a.serviceIdentity)))
            && (payload.Shutdown? ==> b.serviceIdentity == a.serviceIdentity && !b.running)
  {
    hide LastKey, LastProfile;
  }

  /** A failure changes nothing but the session, which is gone. */
  lemma FailureOnlyLosesTheSession(a: Actor, job: Job, requestTimeout: nat)
    requires !Expired(job, requestTimeout)
    requires Handled(a, job, requestTimeout).responses[|a.responses|].outcome.Failed?
    ensures var b := Handled(a, job, requestTimeout);
            b.session == None && b.serviceIdentity == a.serviceIdentity && b.failed == a.failed + 1
  {
  }
}
