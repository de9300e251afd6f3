/** The table of commands that wait for a reply from the browser. Reply handlers are
    opaque: while they run they may send further commands, and further replies may arrive. */
module PendingRequests {
  import opened Wrappers

  type Handler = nat

  /** A reply's "error" or "result" member, of which only the size matters. */
  datatype Object = Object(size: nat, contents: nat)
  datatype Response = Response(responseObject: Option<Object>, isError: bool)

  /** What a pending command gets when the browser is gone. */
  const LOST := Response(None, true)

  /** A message from the backend after parsing. */
  datatype Message =
    | NotJson
    | NotObject
    | NoId
    | Reply(id: int, error: Option<Object>, result: Option<Object>)

  /** What a handler does: it sends a command, or a message arrives while it runs, whose
      handler does things in turn. */
  datatype Deed = Sends(handler: Handler) | Receives(message: Message, deeds: seq<Deed>)

  predicate OnlySends(deeds: seq<Deed>) {
    forall k | 0 <= k < |deeds| :: deeds[k].Sends?
  }

  /** What happened, in order. */
  datatype Event = Sent(id: int, handler: Handler) | Fired(id: int, handler: Handler, response: Response)

  /** An error wins over a result, and an empty result counts as none. */
  function ResponseOf(m: Message): Response
    requires m.Reply?
  {
    if m.error.Some? then Response(m.error, true)
    else if m.result.Some? && m.result.value.size > 0 then Response(m.result, false)
    else Response(None, false)
  }

  /** It is an error exactly if the reply has one, and then carries that; otherwise it
      carries the result, unless there is none or it is empty. */
  predicate IsResponseTo(r: Response, m: Message) {
    m.Reply? && (r.isError <==> m.error.Some?) &&
    if r.isError then r.responseObject == m.error
    else if r.responseObject.Some? then r.responseObject == m.result && m.result.value.size > 0
    else m.result.Some? ==> m.result.value.size == 0
  }

  /** There is only one such response. */
  lemma {:induction false} ResponseIsUnique(r: Response, m: Message)
    requires m.Reply?
    ensures IsResponseTo(r, m) <==> r == ResponseOf(m)
  {
  }

  // ----- What a history says by itself

  function Pending(log: seq<Event>): map<int, Handler> {
    if log == [] then map[]
    else
      var before := Pending(log[..|log| - 1]);
      match log[|log| - 1]
      case Sent(id, h) => before[id := h]
      case Fired(id, _, _) => before - {id}
  }

  /** The highest identifier sent, 0 at first. */
  function Highest(log: seq<Event>): int {
    if log == [] then 0
    else
      match log[|log| - 1]
      case Sent(id, _) => id
      case Fired(_, _, _) => Highest(log[..|log| - 1])
  }

  /** Identifiers only grow, and a handler fires only while its command is pending. */
  ghost predicate Proper(log: seq<Event>) {
    log == [] ||
    (var before := log[..|log| - 1];
     Proper(before) &&
     match log[|log| - 1]
     case Sent(id, _) => id > Highest(before)
     case Fired(id, h, _) => id in Pending(before) && Pending(before)[id] == h)
  }

  function SentCount(log: seq<Event>): nat {
    if log == [] then 0 else SentCount(log[..|log| - 1]) + if log[|log| - 1].Sent? then 1 else 0
  }

  function FiredCount(log: seq<Event>): nat {
    if log == [] then 0 else FiredCount(log[..|log| - 1]) + if log[|log| - 1].Fired? then 1 else 0
  }

  lemma {:induction false} PendingBelowHighest(log: seq<Event>)
    requires Proper(log)
    ensures Highest(log) >= 0
    ensures forall id | id in Pending(log) :: 0 < id <= Highest(log)
    ensures forall k | 0 <= k < |log| :: 0 < log[k].id <= Highest(log)
  {
    if log != [] {
      var before := log[..|log| - 1];
      PendingBelowHighest(before);
      assert forall k | 0 <= k < |before| :: log[k] == before[k];
    }
  }

  /** Everything sent has either completed or is still pending. */
  lemma {:induction false} Conservation(log: seq<Event>)
    requires Proper(log)
    ensures SentCount(log) == FiredCount(log) + |Pending(log)|
  {
    if log != [] {
      var before, last := log[..|log| - 1], log[|log| - 1];
      Conservation(before);
      PendingBelowHighest(before);
      var was, now := Pending(before), Pending(log);
      match last
      case Sent(id, h) =>
        assert now.Keys == was.Keys + {id};
        assert |now.Keys| == |now| && |was.Keys| == |was|;
      case Fired(id, _, _) =>
        assert now.Keys == was.Keys - {id};
        assert |now.Keys| == |now| && |was.Keys| == |was|;
    }
  }

  /** No two commands share an identifier. */
  lemma {:induction false} SentOnce(log: seq<Event>, i: nat, j: nat)
    requires Proper(log) && i < j < |log| && log[i].Sent? && log[j].Sent?
    ensures log[i].id < log[j].id
    decreases |log|
  {
    var before := log[..|log| - 1];
    PendingBelowHighest(before);
    if j < |before| {
      SentOnce(before, i, j);
    } else {
      assert log[i] == before[i];
    }
  }

  /** A handler fires only after its own command was sent under that identifier. */
  lemma {:induction false} FiredAfterSent(log: seq<Event>, id: int)
    requires Proper(log) && id in Pending(log)
    ensures exists k :: 0 <= k < |log| && log[k] == Sent(id, Pending(log)[id])
  {
    var before, last := log[..|log| - 1], log[|log| - 1];
    if last != Sent(id, Pending(log)[id]) {
      FiredAfterSent(before, id);
      var k :| 0 <= k < |before| && before[k] == Sent(id, Pending(before)[id]);
      assert log[k] == before[k];
    } else {
      assert log[|log| - 1] == last;
    }
  }

  /** Once fired, an identifier is never pending again. */
  lemma {:induction false} GoneForGood(log: seq<Event>, i: nat)
    requires Proper(log) && i < |log| && log[i].Fired?
    ensures log[i].id !in Pending(log)
    decreases |log|
  {
    var before := log[..|log| - 1];
    if i < |before| {
      GoneForGood(before, i);
      PendingBelowHighest(before);
      assert log[i] == before[i];
    }
  }

  /** Each handler fires at most once. */
  lemma {:induction false} FiredOnce(log: seq<Event>, i: nat, j: nat)
    requires Proper(log) && i < j < |log| && log[i].Fired? && log[j].Fired?
    ensures log[i].id != log[j].id
    decreases |log|
  {
    var before := log[..|log| - 1];
    if j < |before| {
      FiredOnce(before, i, j);
    } else {
      GoneForGood(before, i);
      assert log[i] == before[i];
    }
  }

  // ----- From one point of a history to a later one

  /** `log` goes on from `was`: what is sent is numbered above `last`, and nothing is failed. */
  ghost predicate Continues(was: seq<Event>, log: seq<Event>, last: int) {
    && was <= log
    && (forall k | |was| <= k < |log| && log[k].Sent? :: log[k].id > last)
    && (forall k | |was| <= k < |log| && log[k].Fired? :: log[k].response != LOST)
  }

  ghost predicate SentOnlySince(was: seq<Event>, log: seq<Event>)
  {
    forall k | |was| <= k < |log| :: log[k].Sent?
  }

  lemma {:induction false} GoingOn(was: seq<Event>, middle: seq<Event>, log: seq<Event>, last: int, later: int)
    requires Continues(was, middle, last) && Continues(middle, log, later) && last <= later
    ensures Continues(was, log, last)
    ensures SentOnlySince(was, middle) && SentOnlySince(middle, log) ==> SentOnlySince(was, log)
  {
    forall k | 0 <= k < |middle|
      ensures log[k] == middle[k]
    {
    }
  }

  /** What has been sent is pending until it fires. */
  lemma {:induction false} PendingMeans(log: seq<Event>, k: nat)
    requires Proper(log) && k < |log| && log[k].Sent?
    ensures log[k].id in Pending(log) <==> forall j | 0 <= j < |log| && log[j].Fired? :: log[j].id != log[k].id
    ensures log[k].id in Pending(log) ==> Pending(log)[log[k].id] == log[k].handler
    decreases |log|
  {
    var last := |log| - 1;
    var before := log[..last];
    PendingBelowHighest(before);
    if k < last {
      PendingMeans(before, k);
    }
    assert forall j | 0 <= j < last :: before[j] == log[j];
  }

  /** What was pending and has not fired since is still pending. */
  lemma {:induction false} StaysPending(was: seq<Event>, log: seq<Event>, id: int)
    requires Proper(log) && was <= log && Proper(was) && id in Pending(was)
    ensures id in Pending(log) <==> forall k | |was| <= k < |log| && log[k].Fired? :: log[k].id != id
    ensures id in Pending(log) ==> Pending(log)[id] == Pending(was)[id]
  {
    FiredAfterSent(was, id);
    var k :| 0 <= k < |was| && was[k] == Sent(id, Pending(was)[id]);
    PendingMeans(was, k);
    PendingMeans(log, k);
    assert forall j | 0 <= j < |was| :: log[j] == was[j];
  }

  // ----- Disconnecting

  ghost predicate FailedIn(start: seq<Event>, log: seq<Event>, id: int, handler: Handler) {
    exists k :: |start| <= k < |log| && log[k] == Fired(id, handler, LOST)
  }

  /** The first `n` of `ids` have been failed since `start`, and nothing else has. */
  ghost predicate Failing(start: seq<Event>, log: seq<Event>, was: map<int, Handler>, ids: seq<int>, n: nat)
    requires n <= |ids|
  {
    && start <= log
    && (forall j | 0 <= j < n :: ids[j] in was && FailedIn(start, log, ids[j], was[ids[j]]))
    && (forall k | |start| <= k < |log| && log[k].Fired? && log[k].response == LOST :: log[k].id in ids[..n])
  }

  /** A command of `was` was completed by a reply after `start`. */
  ghost predicate RepliedSince(start: seq<Event>, log: seq<Event>, was: map<int, Handler>) {
    exists k :: |start| <= k < |log| && log[k].Fired? && log[k].id in was && log[k].response != LOST
  }

  /** `left` is what has been sent since `start` and has not been completed, each with its
      own handler. */
  ghost predicate LeftSince(start: seq<Event>, log: seq<Event>, left: map<int, Handler>) {
    && (forall k | |start| <= k < |log| && log[k].Sent? ::
          log[k].id in left <==> forall j | 0 <= j < |log| && log[j].Fired? :: log[j].id != log[k].id)
    && (forall id | id in left :: exists k :: |start| <= k < |log| && log[k] == Sent(id, left[id]))
  }

  /** The keys of a table, in whatever order the hash table yields them. */
  ghost predicate ListsKeys(ids: seq<int>, was: map<int, Handler>) {
    && (forall i, j | 0 <= i < j < |ids| :: ids[i] != ids[j])
    && (forall k | 0 <= k < |ids| :: ids[k] in was)
    && (forall id | id in was :: id in ids)
  }

  /** One more has been failed, and then its handler did what it did. */
  lemma {:induction false} MoreFailing(start: seq<Event>, before: seq<Event>, log: seq<Event>, was: map<int, Handler>,
                                       ids: seq<int>, n: nat, last: int)
    requires n < |ids| && ids[n] in was && Failing(start, before, was, ids, n)
    requires Continues(before + [Fired(ids[n], was[ids[n]], LOST)], log, last)
    ensures Failing(start, log, was, ids, n + 1)
  {
    var fired := before + [Fired(ids[n], was[ids[n]], LOST)];
    assert forall k | 0 <= k < |fired| :: log[k] == fired[k];
    assert start <= log by {
      assert start <= before <= fired <= log;
    }
    forall j | 0 <= j < n + 1
      ensures ids[j] in was && FailedIn(start, log, ids[j], was[ids[j]])
    {
      if j == n {
        assert log[|before|] == Fired(ids[n], was[ids[n]], LOST);
      } else {
        var k :| |start| <= k < |before| && before[k] == Fired(ids[j], was[ids[j]], LOST);
        assert log[k] == Fired(ids[j], was[ids[j]], LOST);
      }
    }
    assert ids[..n + 1] == ids[..n] + [ids[n]];
  }

  /** Whatever is not pending at its turn has been completed by a reply. */
  lemma {:induction false} GoneAtItsTurn(start: seq<Event>, log: seq<Event>, ids: seq<int>, n: nat)
    requires Proper(start) && Proper(log) && n < |ids| && ListsKeys(ids, Pending(start))
    requires Failing(start, log, Pending(start), ids, n)
    ensures ids[n] in Pending(log) ==> Pending(log)[ids[n]] == Pending(start)[ids[n]]
    ensures ids[n] !in Pending(log) ==> RepliedSince(start, log, Pending(start))
  {
    StaysPending(start, log, ids[n]);
  }

  /** At the end of all turns nothing of the old table has been replied to. */
  lemma {:induction false} NoReplySince(start: seq<Event>, log: seq<Event>, ids: seq<int>)
    requires Proper(start) && Proper(log) && ListsKeys(ids, Pending(start))
    requires Failing(start, log, Pending(start), ids, |ids|)
    ensures !RepliedSince(start, log, Pending(start))
    ensures LeftSince(start, log, Pending(log))
  {
    var was := Pending(start);
    forall k | |start| <= k < |log| && log[k].Fired? && log[k].id in was
      ensures log[k].response == LOST
    {
      var i :| 0 <= i < |ids| && ids[i] == log[k].id;
      var j :| |start| <= j < |log| && log[j] == Fired(ids[i], was[ids[i]], LOST);
      if j < k {
        FiredOnce(log, j, k);
      } else if k < j {
        FiredOnce(log, k, j);
      }
    }
    forall id | id in Pending(log)
      ensures exists k :: |start| <= k < |log| && log[k] == Sent(id, Pending(log)[id])
    {
      SentSince(start, log, ids, id);
    }
    forall k | |start| <= k < |log| && log[k].Sent?
      ensures log[k].id in Pending(log) <==> forall j | 0 <= j < |log| && log[j].Fired? :: log[j].id != log[k].id
    {
      PendingMeans(log, k);
    }
  }

  lemma {:induction false} SentSince(start: seq<Event>, log: seq<Event>, ids: seq<int>, id: int)
    requires Proper(start) && Proper(log) && ListsKeys(ids, Pending(start)) && id in Pending(log)
    requires Failing(start, log, Pending(start), ids, |ids|)
    ensures exists k :: |start| <= k < |log| && log[k] == Sent(id, Pending(log)[id])
  {
    FiredAfterSent(log, id);
    var k :| 0 <= k < |log| && log[k] == Sent(id, Pending(log)[id]);
    AllFailed(start, log, ids, id);
    WasPending(start, log, k);
  }

  lemma {:induction false} AllFailed(start: seq<Event>, log: seq<Event>, ids: seq<int>, id: int)
    requires Proper(start) && Proper(log) && ListsKeys(ids, Pending(start))
    requires Failing(start, log, Pending(start), ids, |ids|)
    ensures id in Pending(start) ==> id !in Pending(log)
  {
    if id in Pending(start) {
      StaysPending(start, log, id);
      var i :| 0 <= i < |ids| && ids[i] == id;
      assert FailedIn(start, log, id, Pending(start)[id]);
    }
  }

  lemma {:induction false} WasPending(start: seq<Event>, log: seq<Event>, k: nat)
    requires Proper(start) && Proper(log) && start <= log && k < |log| && log[k].Sent?
    ensures k < |start| && log[k].id in Pending(log) ==> log[k].id in Pending(start)
  {
    PendingMeans(log, k);
    if k < |start| {
      PendingMeans(start, k);
      assert forall j | 0 <= j < |start| :: start[j] == log[j];
    }
  }

  // ----- What the deeds of the handlers come to

  /** A history and the counter behind it. */
  datatype Host = Host(log: seq<Event>, last: int)

  function AfterSend(h: Host, handler: Handler): Host {
    Host(h.log + [Sent(h.last + 1, handler)], h.last + 1)
  }

  function AfterFire(h: Host, id: int, response: Response): Host
    requires id in Pending(h.log)
  {
    h.(log := h.log + [Fired(id, Pending(h.log)[id], response)])
  }

  /** A reply for a command that is not pending is skipped. */
  function AfterDeed(h: Host, deed: Deed): Host
    decreases deed
  {
    match deed
    case Sends(handler) => AfterSend(h, handler)
    case Receives(message, deeds) =>
      if message.Reply? && message.id in Pending(h.log)
      then AfterDeeds(AfterFire(h, message.id, ResponseOf(message)), deeds)
      else h
  }

  function AfterDeeds(h: Host, deeds: seq<Deed>): Host
    decreases deeds
  {
    if deeds == [] then h else AfterDeeds(AfterDeed(h, deeds[0]), deeds[1..])
  }

  function AfterFailing(h: Host, id: int, deeds: seq<Deed>): Host
    requires id in Pending(h.log)
  {
    AfterDeeds(AfterFire(h, id, LOST), deeds)
  }

  /** The host when `n` of the commands `ids` have had their turn, whose handlers do `does`. */
  function AfterTurns(h: Host, ids: seq<int>, does: seq<seq<Deed>>, n: nat): Host
    requires n <= |ids| == |does|
  {
    if n == 0 then h
    else
      var before := AfterTurns(h, ids, does, n - 1);
      if ids[n - 1] in Pending(before.log) then AfterFailing(before, ids[n - 1], does[n - 1]) else before
  }

  /** Command j is not pending any more when its turn comes. */
  predicate IsMissing(h: Host, ids: seq<int>, does: seq<seq<Deed>>, j: nat)
    requires j < |ids| == |does|
  {
    ids[j] !in Pending(AfterTurns(h, ids, does, j).log)
  }

  predicate Crashes(h: Host, ids: seq<int>, does: seq<seq<Deed>>)
    requires |ids| == |does|
  {
    exists j :: 0 <= j < |ids| && IsMissing(h, ids, does, j)
  }

  /** What the handler of command i does, started where its turn finds the host, completes
      the command `id`. */
  predicate Completes(h: Host, ids: seq<int>, does: seq<seq<Deed>>, i: nat, id: int)
    requires i < |ids| == |does|
  {
    && id in Pending(AfterTurns(h, ids, does, i).log)
    && id !in Pending(AfterTurns(h, ids, does, i + 1).log)
  }

  /** A reply for `id` is dispatched by one of the deeds themselves, or by any deed below. */
  predicate Answers(deeds: seq<Deed>, id: int) {
    exists k :: 0 <= k < |deeds| && AnswersItself(deeds[k], id)
  }

  predicate AnswersItself(deed: Deed, id: int) {
    deed.Receives? && deed.message.Reply? && deed.message.id == id
  }

  predicate Mentions(deed: Deed, id: int)
    decreases deed
  {
    deed.Receives? &&
    (AnswersItself(deed, id) || exists k {:trigger deed.deeds[k]} :: 0 <= k < |deed.deeds| && Mentions(deed.deeds[k], id))
  }

  predicate MentionsAny(deeds: seq<Deed>, id: int) {
    exists k {:trigger deeds[k]} :: 0 <= k < |deeds| && Mentions(deeds[k], id)
  }

  lemma {:induction false} PendingGrows(log: seq<Event>, e: Event)
    ensures Pending(log + [e]) == if e.Sent? then Pending(log)[e.id := e.handler] else Pending(log) - {e.id}
  {
    assert (log + [e])[..|log|] == log;
  }

  /** What no deed answers stays pending. */
  lemma {:induction false} DeedKeeps(h: Host, deed: Deed, id: int)
    requires id in Pending(h.log) && !Mentions(deed, id)
    ensures id in Pending(AfterDeed(h, deed).log)
    decreases deed
  {
    match deed
    case Sends(handler) => PendingGrows(h.log, Sent(h.last + 1, handler));
    case Receives(message, deeds) =>
      if message.Reply? && message.id in Pending(h.log) {
        PendingGrows(h.log, Fired(message.id, Pending(h.log)[message.id], ResponseOf(message)));
        DeedsKeep(AfterFire(h, message.id, ResponseOf(message)), deeds, id);
      }
  }

  lemma {:induction false} DeedsKeep(h: Host, deeds: seq<Deed>, id: int)
    requires id in Pending(h.log) && !MentionsAny(deeds, id)
    ensures id in Pending(AfterDeeds(h, deeds).log)
    decreases deeds
  {
    if deeds != [] {
      assert !Mentions(deeds[0], id);
      DeedKeeps(h, deeds[0], id);
      forall k | 0 <= k < |deeds[1..]|
        ensures !Mentions(deeds[1..][k], id)
      {
        assert deeds[1..][k] == deeds[k + 1];
      }
      DeedsKeep(AfterDeed(h, deeds[0]), deeds[1..], id);
    }
  }

  /** What is gone does not come back, because identifiers only grow. */
  lemma {:induction false} DeedLeavesOut(h: Host, deed: Deed, id: int)
    requires id <= h.last && id !in Pending(h.log)
    ensures id <= AfterDeed(h, deed).last && id !in Pending(AfterDeed(h, deed).log)
    decreases deed
  {
    match deed
    case Sends(handler) => PendingGrows(h.log, Sent(h.last + 1, handler));
    case Receives(message, deeds) =>
      if message.Reply? && message.id in Pending(h.log) {
        PendingGrows(h.log, Fired(message.id, Pending(h.log)[message.id], ResponseOf(message)));
        DeedsLeaveOut(AfterFire(h, message.id, ResponseOf(message)), deeds, id);
      }
  }

  lemma {:induction false} DeedsLeaveOut(h: Host, deeds: seq<Deed>, id: int)
    requires id <= h.last && id !in Pending(h.log)
    ensures id <= AfterDeeds(h, deeds).last && id !in Pending(AfterDeeds(h, deeds).log)
    decreases deeds
  {
    if deeds != [] {
      DeedLeavesOut(h, deeds[0], id);
      DeedsLeaveOut(AfterDeed(h, deeds[0]), deeds[1..], id);
    }
  }

  lemma {:induction false} DeedKeepsCounting(h: Host, deed: Deed)
    ensures h.last <= AfterDeed(h, deed).last
    decreases deed
  {
    match deed
    case Sends(_) =>
    case Receives(message, deeds) =>
      if message.Reply? && message.id in Pending(h.log) {
        DeedsKeepCounting(AfterFire(h, message.id, ResponseOf(message)), deeds);
      }
  }

  lemma {:induction false} DeedsKeepCounting(h: Host, deeds: seq<Deed>)
    ensures h.last <= AfterDeeds(h, deeds).last
    decreases deeds
  {
    if deeds != [] {
      DeedKeepsCounting(h, deeds[0]);
      DeedsKeepCounting(AfterDeed(h, deeds[0]), deeds[1..]);
    }
  }

  /** After a deed of its own that answers it, a command is gone. */
  lemma {:induction false} AnsweredIsGone(h: Host, deeds: seq<Deed>, id: int)
    requires id <= h.last && Answers(deeds, id)
    ensures id !in Pending(AfterDeeds(h, deeds).log)
    decreases |deeds|
  {
    var k :| 0 <= k < |deeds| && AnswersItself(deeds[k], id);
    if k == 0 {
      AnswerRemoves(h, deeds[0], id);
      DeedsLeaveOut(AfterDeed(h, deeds[0]), deeds[1..], id);
    } else {
      DeedKeepsCounting(h, deeds[0]);
      assert AnswersItself(deeds[1..][k - 1], id);
      AnsweredIsGone(AfterDeed(h, deeds[0]), deeds[1..], id);
    }
  }

  lemma {:induction false} AnswerRemoves(h: Host, deed: Deed, id: int)
    requires id <= h.last && AnswersItself(deed, id)
    ensures id !in Pending(AfterDeed(h, deed).log) && id <= AfterDeed(h, deed).last
  {
    if id in Pending(h.log) {
      PendingGrows(h.log, Fired(id, Pending(h.log)[id], ResponseOf(deed.message)));
      DeedsLeaveOut(AfterFire(h, id, ResponseOf(deed.message)), deed.deeds, id);
    }
  }

  // ----- When the disconnection crashes

  /** All that is pending has been numbered. */
  ghost predicate Numbered(h: Host) {
    forall id | id in Pending(h.log) :: id <= h.last
  }

  lemma {:induction false} TurnLeavesOut(h: Host, ids: seq<int>, does: seq<seq<Deed>>, n: nat, id: int)
    requires n < |ids| == |does| && id <= AfterTurns(h, ids, does, n).last
    ensures id <= AfterTurns(h, ids, does, n + 1).last
    ensures id !in Pending(AfterTurns(h, ids, does, n).log) ==> id !in Pending(AfterTurns(h, ids, does, n + 1).log)
  {
    var before := AfterTurns(h, ids, does, n);
    if ids[n] in Pending(before.log) {
      var fired := AfterFire(before, ids[n], LOST);
      PendingGrows(before.log, Fired(ids[n], Pending(before.log)[ids[n]], LOST));
      DeedsKeepCounting(fired, does[n]);
      if id !in Pending(before.log) {
        DeedsLeaveOut(fired, does[n], id);
      }
    }
  }

  lemma {:induction false} TurnsLeaveOut(h: Host, ids: seq<int>, does: seq<seq<Deed>>, i: nat, n: nat, id: int)
    requires i <= n <= |ids| == |does| && id <= AfterTurns(h, ids, does, i).last
    ensures id <= AfterTurns(h, ids, does, n).last
    ensures id !in Pending(AfterTurns(h, ids, does, i).log) ==> id !in Pending(AfterTurns(h, ids, does, n).log)
  {
    if i < n {
      TurnsLeaveOut(h, ids, does, i, n - 1, id);
      TurnLeavesOut(h, ids, does, n - 1, id);
    }
  }

  lemma {:induction false} SomeTurnCompletes(h: Host, ids: seq<int>, does: seq<seq<Deed>>, n: nat, id: int) returns (i: nat)
    requires n <= |ids| == |does| && id in Pending(h.log) && id !in Pending(AfterTurns(h, ids, does, n).log)
    ensures i < n && Completes(h, ids, does, i, id)
  {
    if id in Pending(AfterTurns(h, ids, does, n - 1).log) {
      i := n - 1;
    } else {
      i := SomeTurnCompletes(h, ids, does, n - 1, id);
    }
  }

  /** It crashes if and only if what some handler does, from the table its turn finds,
      completes a command whose own turn is still to come. */
  lemma {:induction false} CrashesIff(h: Host, ids: seq<int>, does: seq<seq<Deed>>)
    requires |ids| == |does| && ListsKeys(ids, Pending(h.log)) && Numbered(h)
    ensures Crashes(h, ids, does) <==> exists i, j :: 0 <= i < j < |ids| && Completes(h, ids, does, i, ids[j])
  {
    hide AfterTurns, Completes, IsMissing;
    if Crashes(h, ids, does) {
      var j :| 0 <= j < |ids| && IsMissing(h, ids, does, j);
      MissingWasCompleted(h, ids, does, j);
    }
    forall i, j | 0 <= i < j < |ids| && Completes(h, ids, does, i, ids[j])
      ensures IsMissing(h, ids, does, j)
    {
      CompletedIsMissing(h, ids, does, i, j);
    }
  }

  lemma {:induction false} MissingWasCompleted(h: Host, ids: seq<int>, does: seq<seq<Deed>>, j: nat)
    requires |ids| == |does| && ListsKeys(ids, Pending(h.log))
    requires j < |ids| && IsMissing(h, ids, does, j)
    ensures exists i :: 0 <= i < j && Completes(h, ids, does, i, ids[j])
  {
    var i := SomeTurnCompletes(h, ids, does, j, ids[j]);
  }

  lemma {:induction false} CompletedIsMissing(h: Host, ids: seq<int>, does: seq<seq<Deed>>, i: nat, j: nat)
    requires |ids| == |does| && ListsKeys(ids, Pending(h.log)) && Numbered(h)
    requires i < j < |ids| && Completes(h, ids, does, i, ids[j])
    ensures IsMissing(h, ids, does, j)
  {
    TurnsLeaveOut(h, ids, does, 0, i + 1, ids[j]);
    TurnsLeaveOut(h, ids, does, i + 1, j, ids[j]);
  }

  /** A handler that answers a later command itself makes it crash, whatever else is done. */
  lemma {:induction false} AnsweringCrashes(h: Host, ids: seq<int>, does: seq<seq<Deed>>, i: nat, j: nat)
    requires |ids| == |does| && ListsKeys(ids, Pending(h.log)) && Numbered(h)
    requires i < j < |ids| && Answers(does[i], ids[j])
    ensures Crashes(h, ids, does)
  {
    if !IsMissing(h, ids, does, i) {
      var before := AfterTurns(h, ids, does, i);
      TurnsLeaveOut(h, ids, does, 0, i, ids[j]);
      AnsweredIsGone(AfterFire(before, ids[i], LOST), does[i], ids[j]);
      TurnLeavesOut(h, ids, does, i, ids[j]);
      TurnsLeaveOut(h, ids, does, i + 1, j, ids[j]);
      assert IsMissing(h, ids, does, j);
    }
  }

  /** Without any mention of a later command it does not crash. */
  lemma {:induction false} CrashNeedsMention(h: Host, ids: seq<int>, does: seq<seq<Deed>>)
    requires |ids| == |does| && ListsKeys(ids, Pending(h.log)) && Crashes(h, ids, does)
    ensures exists i, j :: 0 <= i < j < |ids| && MentionsAny(does[i], ids[j])
  {
    var j :| 0 <= j < |ids| && IsMissing(h, ids, does, j);
    var i := SomeTurnCompletes(h, ids, does, j, ids[j]);
    var before := AfterTurns(h, ids, does, i);
    assert ids[i] in Pending(before.log);
    PendingGrows(before.log, Fired(ids[i], Pending(before.log)[ids[i]], LOST));
    assert ids[i] != ids[j];
    if !MentionsAny(does[i], ids[j]) {
      DeedsKeep(AfterFire(before, ids[i], LOST), does[i], ids[j]);
    }
  }

  /** Replies arrive only in the handlers of the lost commands, not in those of the replies. */
  predicate IsFlat(deeds: seq<Deed>) {
    forall k | 0 <= k < |deeds| && deeds[k].Receives? :: OnlySends(deeds[k].deeds)
  }

  lemma {:induction false} FlatMention(deeds: seq<Deed>, id: int)
    requires IsFlat(deeds)
    ensures MentionsAny(deeds, id) <==> Answers(deeds, id)
    ensures OnlySends(deeds) ==> !MentionsAny(deeds, id)
  {
    forall k | 0 <= k < |deeds|
      ensures Mentions(deeds[k], id) <==> AnswersItself(deeds[k], id)
    {
    }
  }

  /** For such handlers a look at what they do is enough. */
  lemma {:induction false} FlatCrashesIff(h: Host, ids: seq<int>, does: seq<seq<Deed>>)
    requires |ids| == |does| && ListsKeys(ids, Pending(h.log)) && Numbered(h)
    requires forall i | 0 <= i < |does| :: IsFlat(does[i])
    ensures Crashes(h, ids, does) <==> exists i, j :: 0 <= i < j < |ids| && Answers(does[i], ids[j])
  {
    hide Crashes, ListsKeys, Numbered, IsFlat, MentionsAny, Answers;
    if Crashes(h, ids, does) {
      CrashNeedsMention(h, ids, does);
      var i, j :| 0 <= i < j < |ids| && MentionsAny(does[i], ids[j]);
      FlatMention(does[i], ids[j]);
    }
    if i, j :| 0 <= i < j < |ids| && Answers(does[i], ids[j]) {
      AnsweringCrashes(h, ids, does, i, j);
    }
  }

  /** Handlers that only send commands never make it crash. */
  lemma {:induction false} SendingNeverCrashes(h: Host, ids: seq<int>, does: seq<seq<Deed>>)
    requires |ids| == |does| && ListsKeys(ids, Pending(h.log))
    requires forall i | 0 <= i < |does| :: OnlySends(does[i])
    ensures !Crashes(h, ids, does)
  {
    hide Crashes, ListsKeys, MentionsAny;
    if Crashes(h, ids, does) {
      CrashNeedsMention(h, ids, does);
      var i, j :| 0 <= i < j < |ids| && MentionsAny(does[i], ids[j]);
      FlatMention(does[i], ids[j]);
      assert false;
    }
  }

  // ----- The object

  /** The function-local counter, shared by every host. */
  class SequenceCounter {
    var last: int

    constructor ()
      ensures last == 0
    {
      last := 0;
    }
  }

  class SessionHost {
    var commandRequests: map<int, Handler>
    const counter: SequenceCounter
    ghost var log: seq<Event>

    ghost predicate Valid()
      reads this, counter
    {
      commandRequests == Pending(log) && Proper(log) && Highest(log) <= counter.last
    }

    ghost function Now(): Host
      reads this, counter
    {
      Host(log, counter.last)
    }

    constructor (counter: SequenceCounter)
      requires counter.last >= 0
      ensures Valid() && log == [] && this.counter == counter
    {
      commandRequests := map[];
      this.counter := counter;
      log := [];
    }

    method SendCommandToBackend(handler: Handler) returns (sequenceID: int)
      requires Valid()
      modifies this, counter
      ensures Valid()
      ensures sequenceID == counter.last == old(counter.last) + 1
      ensures log == old(log) + [Sent(sequenceID, handler)]
      ensures sequenceID !in old(commandRequests) && commandRequests == old(commandRequests)[sequenceID := handler]
    {
      PendingBelowHighest(log);
      counter.last := counter.last + 1;
      sequenceID := counter.last;
      commandRequests := commandRequests[sequenceID := handler];
      log := log + [Sent(sequenceID, handler)];
      assert log[..|log| - 1] == old(log);
    }

    /** Takes the handler of `id` out of the table and calls it, which does `deeds`. */
    method Complete(id: int, response: Response, deeds: seq<Deed>)
      requires Valid() && id in commandRequests
      modifies this, counter
      ensures Valid() && old(counter.last) <= counter.last
      ensures Continues(old(log) + [Fired(id, old(commandRequests)[id], response)], log, old(counter.last))
      ensures OnlySends(deeds) ==> SentOnlySince(old(log) + [Fired(id, old(commandRequests)[id], response)], log)
      ensures Now() == AfterDeeds(AfterFire(old(Now()), id, response), deeds)
      decreases deeds, 0
    {
      hide Continues, SentOnlySince, AfterDeed;
      ghost var start := AfterFire(Now(), id, response);
      PendingBelowHighest(log);
      ghost var fired := log + [Fired(id, commandRequests[id], response)];
      assert fired[..|fired| - 1] == log;
      commandRequests := commandRequests - {id};
      log := fired;
      NothingYet(log, counter.last);
      for i := 0 to |deeds|
        invariant Valid() && old(counter.last) <= counter.last
        invariant Continues(fired, log, old(counter.last))
        invariant OnlySends(deeds) ==> SentOnlySince(fired, log)
        invariant AfterDeeds(Now(), deeds[i..]) == AfterDeeds(start, deeds)
      {
        ghost var before, last := log, counter.last;
        assert deeds[i..][1..] == deeds[i + 1..];
        Do(deeds[i]);
        GoingOn(fired, before, log, old(counter.last), last);
      }
    }

    method Do(deed: Deed)
      requires Valid()
      modifies this, counter
      ensures Valid() && old(counter.last) <= counter.last
      ensures Continues(old(log), log, old(counter.last))
      ensures deed.Sends? ==> SentOnlySince(old(log), log)
      ensures Now() == AfterDeed(old(Now()), deed)
      decreases deed
    {
      match deed
      case Sends(handler) =>
        var _ := SendCommandToBackend(handler);
      case Receives(message, deeds) =>
        if !message.Reply? || message.id in commandRequests {
          DispatchMessage(message, deeds);
        }
    }

    /** A reply fires exactly the handler filed under its identifier; anything else in
        a message is ignored. */
    method DispatchMessage(message: Message, deeds: seq<Deed>)
      requires Valid() && (message.Reply? ==> message.id in commandRequests)
      modifies this, counter
      ensures Valid() && old(counter.last) <= counter.last
      ensures Continues(old(log), log, old(counter.last))
      ensures !message.Reply? ==> Now() == old(Now()) && commandRequests == old(commandRequests)
      ensures message.Reply? ==>
                var fired := old(log) + [Fired(message.id, old(commandRequests)[message.id], ResponseOf(message))];
                && Continues(fired, log, old(counter.last))
                && (OnlySends(deeds) ==> SentOnlySince(fired, log))
      ensures message.Reply? ==>
                && |log| > |old(log)| && log[|old(log)|].Fired? && log[|old(log)|].id == message.id
                && IsResponseTo(log[|old(log)|].response, message)
      ensures message.Reply? ==>
                Now() == AfterDeeds(AfterFire(old(Now()), message.id, ResponseOf(message)), deeds)
      decreases deeds, 1
    {
      if message.NotJson? || message.NotObject? || message.NoId? {
        return;
      }
      var response := Response(None, false);
      if message.error.Some? {
        response := Response(message.error, true);
      } else if message.result.Some? {
        if message.result.value.size > 0 {
          response := response.(responseObject := message.result);
        }
      }
      ghost var was := log;
      ghost var fired := log + [Fired(message.id, commandRequests[message.id], response)];
      Complete(message.id, response, deeds);
      assert Continues(was, fired, old(counter.last));
      GoingOn(was, fired, log, old(counter.last), old(counter.last));
      assert log[|was|] == fired[|was|];
    }

    /** Fails everything that was pending, in the order `ids`; the handlers do `does`. The
        source takes each handler out of the table and calls it unseen, which crashes for
        one that is gone. Handlers that only send do not make it crash, and then everything
        pending has been failed, and what is pending is what has been sent since. */
    method InspectorDisconnected(ids: seq<int>, does: seq<seq<Deed>>) returns (crashed: bool, ghost turns: nat)
      requires Valid() && ListsKeys(ids, commandRequests) && |ids| == |does|
      modifies this, counter
      ensures Valid() && old(log) <= log
      ensures crashed <==> Crashes(old(Now()), ids, does)
      ensures (forall i | 0 <= i < |does| :: OnlySends(does[i])) ==> !crashed
      ensures turns <= |ids| && Now() == AfterTurns(old(Now()), ids, does, turns)
      ensures if crashed then turns < |ids| && IsMissing(old(Now()), ids, does, turns) else turns == |ids|
      ensures crashed <==> RepliedSince(old(log), log, old(commandRequests))
      ensures !crashed ==> Failing(old(log), log, old(commandRequests), ids, |ids|)
      ensures !crashed ==> LeftSince(old(log), log, commandRequests)
      ensures forall k | |old(log)| <= k < |log| && log[k].Sent? :: log[k].id > old(counter.last)
    {
      hide Failing, Proper, Pending, Highest, RepliedSince, ListsKeys, LeftSince, OnlySends;
      ghost var start, from := log, Now();
      NothingFailing(log, commandRequests, ids);
      if forall i | 0 <= i < |does| :: OnlySends(does[i]) {
        SendingNeverCrashes(Now(), ids, does);
      }
      turns := 0;
      for i := 0 to |ids|
        invariant Valid() && old(counter.last) <= counter.last
        invariant turns == i && Now() == AfterTurns(from, ids, does, i)
        invariant forall j | 0 <= j < i :: !IsMissing(from, ids, does, j)
        invariant Failing(start, log, Pending(start), ids, i)
        invariant start <= log
        invariant forall k | |start| <= k < |log| && log[k].Sent? :: log[k].id > old(counter.last)
      {
        GoneAtItsTurn(start, log, ids, i);
        if ids[i] !in commandRequests {
          assert IsMissing(from, ids, does, i);
          return true, turns;
        }
        ghost var before, last := log, counter.last;
        KeyIsListed(ids, Pending(start), i);
        Complete(ids[i], LOST, does[i]);
        MoreFailing(start, before, log, Pending(start), ids, i, last);
        turns := turns + 1;
      }
      NoReplySince(start, log, ids);
      return false, turns;
    }
  }

  // ----- Two disconnections

  /** A handler that sends a command when its own is lost: the new one stays pending. */
  lemma {:induction false} CommandLeftPending(first: Handler, second: Handler)
    ensures var h := Host([Sent(1, first)], 1);
            var after := AfterTurns(h, [1], [[Sends(second)]], 1);
            && ListsKeys([1], Pending(h.log)) && !Crashes(h, [1], [[Sends(second)]])
            && after.log == h.log + [Fired(1, first, LOST), Sent(2, second)]
            && Pending(after.log) == map[2 := second]
  {
    var h := Host([Sent(1, first)], 1);
    var does := [[Sends(second)]];
    PendingGrows([], Sent(1, first));
    assert [] + [Sent(1, first)] == h.log;
    SendingNeverCrashes(h, [1], does);
    var fired := AfterFire(h, 1, LOST);
    PendingGrows(h.log, Fired(1, first, LOST));
    PendingGrows(fired.log, Sent(2, second));
    assert AfterTurns(h, [1], does, 0) == h;
    assert does[0][1..] == [];
    assert AfterDeeds(fired, does[0]) == AfterSend(fired, second);
  }

  /** Two commands are pending, and the handler of the first receives the reply of the
      second: the turn of the second crashes. */
  lemma {:induction false} ReplyWhileDisconnecting(first: Handler, second: Handler, result: Option<Object>)
    ensures var h := Host([Sent(1, first), Sent(2, second)], 2);
            var does := [[Receives(Reply(2, None, result), [])], []];
            ListsKeys([1, 2], Pending(h.log)) && Crashes(h, [1, 2], does)
  {
    var h := Host([Sent(1, first), Sent(2, second)], 2);
    var does := [[Receives(Reply(2, None, result), [])], []];
    PendingGrows([], Sent(1, first));
    PendingGrows([Sent(1, first)], Sent(2, second));
    assert [] + [Sent(1, first)] == [Sent(1, first)];
    assert [Sent(1, first)] + [Sent(2, second)] == h.log;
    assert Pending(h.log) == map[1 := first, 2 := second];
    assert AnswersItself(does[0][0], 2);
    AnsweringCrashes(h, [1, 2], does, 0, 1);
  }

  method DisconnectWhileSending(first: Handler, second: Handler) returns (crashed: bool, left: map<int, Handler>)
    ensures !crashed && left == map[2 := second]
  {
    var counter := new SequenceCounter();
    var host := new SessionHost(counter);
    var id := host.SendCommandToBackend(first);
    assert host.Now() == Host([Sent(1, first)], 1);
    CommandLeftPending(first, second);
    ghost var turns;
    crashed, turns := host.InspectorDisconnected([1], [[Sends(second)]]);
    left := host.commandRequests;
  }

  method DisconnectWhileReceiving(first: Handler, second: Handler, result: Option<Object>) returns (crashed: bool)
    ensures crashed
  {
    var counter := new SequenceCounter();
    var host := new SessionHost(counter);
    var one := host.SendCommandToBackend(first);
    var two := host.SendCommandToBackend(second);
    assert host.Now() == Host([Sent(1, first), Sent(2, second)], 2);
    ReplyWhileDisconnecting(first, second, result);
    ghost var turns;
    crashed, turns := host.InspectorDisconnected([1, 2], [[Receives(Reply(2, None, result), [])], []]);
  }

  lemma {:induction false} NothingYet(log: seq<Event>, last: int)
    ensures Continues(log, log, last) && SentOnlySince(log, log)
  {
  }

  lemma {:induction false} NothingFailing(log: seq<Event>, was: map<int, Handler>, ids: seq<int>)
    ensures Failing(log, log, was, ids, 0)
  {
  }

  lemma {:induction false} KeyIsListed(ids: seq<int>, was: map<int, Handler>, i: nat)
    requires ListsKeys(ids, was) && i < |ids|
    ensures ids[i] in was
  {
  }
}
