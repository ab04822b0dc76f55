/**
 * Duplicate suppression in the reticulumd RPC adapter: a bounded list of
 * delivered message ids (`remember_seen`, `has_seen`, `receive_frame`).
 * What the daemon lists on each poll is an input; decoding one message
 * yields a frame, nothing, or an error.
 */
module SeenWindow {
  import opened Wrappers

  const MAX_SEEN: nat := 256

  datatype Content = Frame(bytes: seq<int>) | NotAFrame | Malformed

  datatype Message = Message(id: string, content: Content)

  datatype Poll = Delivered(message: Message) | Nothing | Failed

  /** The message a poll acts on: the first with an unseen, non-empty id that does not decode to nothing. */
  function FirstUnseen(messages: seq<Message>, seen: seq<string>): (r: Option<Message>)
    ensures r.Some? ==> r.value in messages && r.value.id != "" && r.value.id !in seen && !r.value.content.NotAFrame?
    ensures r.None? ==> forall m | m in messages :: m.id == "" || m.id in seen || m.content.NotAFrame?
  {
    if messages == [] then None
    else
      var m := messages[0];
      if m.id == "" || m.id in seen || m.content.NotAFrame? then FirstUnseen(messages[1..], seen) else Some(m)
  }

  function PollResult(messages: seq<Message>, seen: seq<string>): Poll {
    match FirstUnseen(messages, seen)
    case None => Nothing
    case Some(m) => if m.content.Malformed? then Failed else Delivered(m)
  }

  /** A poll passes over a message without an id, one already seen, and one that decodes to nothing. */
  predicate PassedOver(m: Message, seen: seq<string>) { m.id == "" || m.id in seen || m.content.NotAFrame? }

  /** The first message not passed over, if there is one. */
  ghost predicate ActsOn(messages: seq<Message>, seen: seq<string>, i: nat) {
    i < |messages| && !PassedOver(messages[i], seen) && forall j | 0 <= j < i :: PassedOver(messages[j], seen)
  }

  /** A poll delivers the frame it acts on, fails at a malformed message, and has nothing when all are passed over. */
  lemma PollIs(messages: seq<Message>, seen: seq<string>, m: Message)
    ensures var r := PollResult(messages, seen);
            && (r == Delivered(m) <==> exists i: nat :: ActsOn(messages, seen, i) && messages[i] == m && m.content.Frame?)
            && (r == Failed <==> exists i: nat :: ActsOn(messages, seen, i) && messages[i].content.Malformed?)
            && (r == Nothing <==> forall i | 0 <= i < |messages| :: PassedOver(messages[i], seen))
  {
    var i := FirstPosition(messages, seen);
    hide FirstUnseen;
    forall j: nat | ActsOn(messages, seen, j) && FirstUnseen(messages, seen).Some? ensures j == i {}
  }

  lemma {:induction false} FirstPosition(messages: seq<Message>, seen: seq<string>) returns (i: nat)
    ensures FirstUnseen(messages, seen).Some? ==>
              ActsOn(messages, seen, i) && messages[i] == FirstUnseen(messages, seen).value
    ensures FirstUnseen(messages, seen).None? <==> forall j | 0 <= j < |messages| :: PassedOver(messages[j], seen)
    ensures FirstUnseen(messages, seen).Some? ==> !messages[i].content.NotAFrame?
  {
    i := 0;
    if messages != [] && PassedOver(messages[0], seen) {
      i := FirstPosition(messages[1..], seen);
      i := i + 1;
    }
  }

  /** The last `n` elements, or all of them. */
  function Last<T>(s: seq<T>, n: nat): seq<T> { if |s| <= n then s else s[|s| - n..] }

  function SeenAfter(messages: seq<Message>, seen: seq<string>): seq<string> {
    match PollResult(messages, seen)
    case Delivered(m) => Last(seen + [m.id], MAX_SEEN)
    case _ => seen
  }

  class Adapter {
    var seenMessageIds: seq<string>

    constructor ()
      ensures seenMessageIds == []
    {
      seenMessageIds := [];
    }

    predicate HasSeen(id: string)
      reads this
    {
      id in seenMessageIds
    }

    method RememberSeen(id: string)
      modifies this
      ensures seenMessageIds ==
              if id in old(seenMessageIds) then old(seenMessageIds) else Last(old(seenMessageIds) + [id], MAX_SEEN)
    {
      if HasSeen(id) {
        return;
      }
      seenMessageIds := seenMessageIds + [id];
      ghost var all, dropped := seenMessageIds, 0;
      while |seenMessageIds| > MAX_SEEN
        invariant 0 <= dropped <= |all| && seenMessageIds == all[dropped..]
        invariant dropped > 0 ==> |seenMessageIds| >= MAX_SEEN
        decreases |seenMessageIds|
      {
        seenMessageIds := seenMessageIds[1..];
        dropped := dropped + 1;
      }
    }

    method ReceiveFrame(messages: seq<Message>) returns (r: Poll)
      modifies this
      ensures r == PollResult(messages, old(seenMessageIds))
      ensures seenMessageIds == SeenAfter(messages, old(seenMessageIds))
    {
      var i := 0;
      while i < |messages|
        invariant 0 <= i <= |messages|
        invariant seenMessageIds == old(seenMessageIds)
        invariant FirstUnseen(messages[i..], seenMessageIds) == FirstUnseen(messages, seenMessageIds)
      {
        var message := messages[i];
        i := i + 1;
        if message.id == "" || HasSeen(message.id) {
          continue;
        }
        match message.content {
          case Malformed =>
            return Failed;
          case NotAFrame =>
          case Frame(_) =>
            RememberSeen(message.id);
            return Delivered(message);
        }
      }
      r := Nothing;
    }
  }

  // ---- whole runs ------------------------------------------------------------------------

  function DeliveredNow(messages: seq<Message>, seen: seq<string>): seq<string> {
    match PollResult(messages, seen) case Delivered(m) => [m.id] case _ => []
  }

  /** The ids delivered by a run of polls, in order, from an adapter that has seen `seen`. */
  function DeliveredIds(polls: seq<seq<Message>>, seen: seq<string>): seq<string>
    decreases |polls|
  {
    if polls == [] then []
    else
      DeliveredNow(polls[0], seen) + DeliveredIds(polls[1..], SeenAfter(polls[0], seen))
  }

  function SeenAtEnd(polls: seq<seq<Message>>, seen: seq<string>): seq<string>
    decreases |polls|
  {
    if polls == [] then seen else SeenAtEnd(polls[1..], SeenAfter(polls[0], seen))
  }

  /** No id repeats within 257 consecutive entries. */
  ghost predicate Spread(log: seq<string>) {
    forall i, j | 0 <= i < j < |log| && j - i <= 256 :: log[i] != log[j]
  }

  lemma DeliveryKeepsSpread(log: seq<string>, id: string)
    requires Spread(log) && id !in Last(log, 256)
    ensures Spread(log + [id])
    ensures Last(Last(log, 256) + [id], 256) == Last(log + [id], 256)
  {
    var more := log + [id];
    forall i, j | 0 <= i < j < |more| && j - i <= 256 ensures more[i] != more[j] {
      if j == |log| {
        var recent := Last(log, 256);
        assert recent[i - (|log| - |recent|)] == log[i];
      }
    }
  }

  /** In every run the window is the last 256 delivered ids, and 257 consecutive deliveries are of distinct ids. */
  lemma {:induction false} WindowOverRuns(polls: seq<seq<Message>>, log: seq<string>)
    requires Spread(log)
    ensures var total := log + DeliveredIds(polls, Last(log, 256));
            && SeenAtEnd(polls, Last(log, 256)) == Last(total, 256)
            && Spread(total)
    decreases |polls|
  {
    hide FirstUnseen, PollResult, Last, Spread, SeenAfter;
    var seen := Last(log, 256);
    if polls == [] {
      assert log + [] == log;
    } else {
      var now, rest := DeliveredNow(polls[0], seen), DeliveredIds(polls[1..], SeenAfter(polls[0], seen));
      OnePoll(polls[0], log);
      WindowOverRuns(polls[1..], log + now);
      Assoc(log, now, rest);
    }
  }

  /** One poll appends what it delivers to the log, and the window follows. */
  lemma OnePoll(messages: seq<Message>, log: seq<string>)
    requires Spread(log)
    ensures var now := DeliveredNow(messages, Last(log, 256));
            && Spread(log + now)
            && SeenAfter(messages, Last(log, 256)) == Last(log + now, 256)
  {
    hide FirstUnseen, Last;
    var seen := Last(log, 256);
    var result := PollResult(messages, seen);
    if result.Delivered? {
      DeliveredIsUnseen(messages, seen);
      DeliveryKeepsSpread(log, result.message.id);
    } else {
      assert log + [] == log;
    }
  }

  lemma DeliveredIsUnseen(messages: seq<Message>, seen: seq<string>)
    ensures PollResult(messages, seen).Delivered? ==> PollResult(messages, seen).message.id !in seen
  {
  }

  // ---- polling a list that does not change ---------------------------------------------------

  /** The messages a poll can deliver, in order, each id only where it stands first; ids in `skip` are left out. */
  function Firsts(messages: seq<Message>, skip: set<string>): seq<Message> {
    if messages == [] then []
    else
      var m, rest := messages[0], messages[1..];
      if m.id == "" || !m.content.Frame? || m.id in skip then Firsts(rest, skip) else [m] + Firsts(rest, skip + {m.id})
  }

  function Deliverable(messages: seq<Message>): seq<Message> { Firsts(messages, {}) }

  function Ids(messages: seq<Message>): (ids: seq<string>)
    ensures |ids| == |messages| && forall i | 0 <= i < |messages| :: ids[i] == messages[i].id
  {
    seq(|messages|, i requires 0 <= i < |messages| => messages[i].id)
  }

  /** No message that a poll looks at is malformed. */
  ghost predicate Readable(messages: seq<Message>) {
    forall m | m in messages && m.content.Malformed? :: m.id == ""
  }

  lemma {:induction false} FirstsAreDistinct(messages: seq<Message>, skip: set<string>)
    ensures var d := Firsts(messages, skip);
            && (forall i, j | 0 <= i < j < |d| :: d[i].id != d[j].id)
            && (forall m | m in d :: m in messages && m.id !in skip && m.id != "" && m.content.Frame?)
  {
    if messages != [] {
      var m, rest := messages[0], messages[1..];
      if m.id == "" || !m.content.Frame? || m.id in skip {
        FirstsAreDistinct(rest, skip);
      } else {
        FirstsAreDistinct(rest, skip + {m.id});
      }
    }
  }

  lemma {:induction false} FirstUnseenIsNext(messages: seq<Message>, skip: set<string>, seen: seq<string>, k: nat)
    requires Readable(messages) && forall id | id in skip :: id in seen
    requires var d := Firsts(messages, skip);
             && k <= |d| && (forall i | 0 <= i < k :: d[i].id in seen)
             && (k < |d| ==> d[k].id !in seen)
    ensures var d := Firsts(messages, skip);
            FirstUnseen(messages, seen) == if k < |d| then Some(d[k]) else None
    decreases |messages|
  {
    if messages != [] {
      var m, rest := messages[0], messages[1..];
      var d := Firsts(messages, skip);
      if m.id == "" || !m.content.Frame? || m.id in skip {
        FirstUnseenIsNext(rest, skip, seen, k);
      } else {
        assert d[0] == m && d[1..] == Firsts(rest, skip + {m.id});
        if k > 0 {
          FirstUnseenIsNext(rest, skip + {m.id}, seen, k - 1);
        }
      }
    }
  }

  /** The window after `k` polls of the same list. */
  function SeenAfterPolls(messages: seq<Message>, k: nat): seq<string> {
    if k == 0 then [] else SeenAfter(messages, SeenAfterPolls(messages, k - 1))
  }

  /** A list of at most 256 deliverable ids is delivered once each, in order, and then nothing more. */
  lemma {:induction false} ShortListDeliveredOnceInOrder(messages: seq<Message>, k: nat)
    requires Readable(messages) && |Deliverable(messages)| <= 256
    ensures var d := Deliverable(messages);
            && SeenAfterPolls(messages, k) == Ids(d[..Min(k, |d|)])
            && PollResult(messages, SeenAfterPolls(messages, k)) == if k < |d| then Delivered(d[k]) else Nothing
  {
    var d := Deliverable(messages);
    var n := Min(k, |d|);
    FirstsAreDistinct(messages, {});
    hide Firsts, FirstUnseen;
    if k > 0 {
      ShortListDeliveredOnceInOrder(messages, k - 1);
      if k <= |d| {
        assert Ids(d[..k]) == Ids(d[..k - 1]) + [d[k - 1].id];
      }
    }
    var seen := Ids(d[..n]);
    assert SeenAfterPolls(messages, k) == seen;
    forall i | 0 <= i < n ensures d[i].id in seen {
      assert seen[i] == d[..n][i].id;
    }
    FirstUnseenIsNext(messages, {}, seen, n);
    assert k < |d| ==> d[k] in d;
  }

  lemma {:induction false} WindowIsBounded(messages: seq<Message>, k: nat)
    ensures |SeenAfterPolls(messages, k)| <= 256
  {
    if k > 0 {
      WindowIsBounded(messages, k - 1);
    }
  }

  lemma {:induction false} DistinctIdsNeedRoom(ids: seq<string>, seen: seq<string>)
    requires forall i, j | 0 <= i < j < |ids| :: ids[i] != ids[j]
    requires forall id | id in ids :: id in seen
    ensures |ids| <= |seen|
    decreases |ids|
  {
    if ids != [] {
      assert ids[0] in seen;
      var k :| 0 <= k < |seen| && seen[k] == ids[0];
      var fewer := seen[..k] + seen[k + 1..];
      forall id | id in ids[1..] ensures id in fewer {
        assert id in seen && id != ids[0];
        var n :| 0 <= n < |seen| && seen[n] == id;
        assert if n < k then fewer[n] == id else n > k && fewer[n - 1] == id;
      }
      DistinctIdsNeedRoom(ids[1..], fewer);
    }
  }

  /** A poll of a list with more deliverable ids than the window holds always finds something. */
  lemma LongListNeverRests(messages: seq<Message>, k: nat)
    requires |Deliverable(messages)| > 256
    ensures PollResult(messages, SeenAfterPolls(messages, k)) != Nothing
  {
    var d, seen := Deliverable(messages), SeenAfterPolls(messages, k);
    WindowIsBounded(messages, k);
    FirstsAreDistinct(messages, {});
    hide Firsts, SeenAfterPolls;
    if FirstUnseen(messages, seen).None? {
      DistinctIdsNeedRoom(Ids(d), seen);
    }
  }

  /** Polling an unchanging readable list ever comes to nothing exactly when its deliverable ids fit the window. */
  lemma QuietExactlyWhenListFits(messages: seq<Message>)
    requires Readable(messages)
    ensures (exists k: nat :: PollResult(messages, SeenAfterPolls(messages, k)) == Nothing)
            <==> |Deliverable(messages)| <= 256
  {
    hide Deliverable, PollResult;
    if |Deliverable(messages)| <= 256 {
      ShortListDeliveredOnceInOrder(messages, |Deliverable(messages)|);
    } else {
      forall k: nat ensures PollResult(messages, SeenAfterPolls(messages, k)) != Nothing {
        LongListNeverRests(messages, k);
      }
    }
  }

  /** `n` messages with ids of different lengths. */
  function Numbered(n: nat): (messages: seq<Message>)
    ensures |messages| == n && forall i | 0 <= i < n :: |messages[i].id| == i + 1 && messages[i].content == Frame([])
  {
    seq(n, i requires 0 <= i < n => Message(LongId(i + 1), Frame([])))
  }

  function LongId(n: nat): (id: string)
    ensures |id| == n
  {
    seq(n, _ => 'x')
  }

  lemma {:induction false} FirstsOfDistinct(messages: seq<Message>, skip: set<string>)
    requires forall i | 0 <= i < |messages| :: messages[i].id != "" && messages[i].content.Frame? && messages[i].id !in skip
    requires forall i, j | 0 <= i < j < |messages| :: messages[i].id != messages[j].id
    ensures Firsts(messages, skip) == messages
  {
    if messages != [] {
      FirstsOfDistinct(messages[1..], skip + {messages[0].id});
    }
  }

  /** 257 messages are already too many: every poll delivers one of them again, forever. */
  lemma OneTooManyNeverRests(k: nat)
    ensures PollResult(Numbered(257), SeenAfterPolls(Numbered(257), k)).Delivered?
  {
    var messages := Numbered(257);
    FirstsOfDistinct(messages, {});
    LongListNeverRests(messages, k);
  }
}
