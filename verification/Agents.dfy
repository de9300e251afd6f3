/** The agents of the jsc shell as interleaved atomic steps: the worker list with
    its one lock and one shared condition, the report queue, and the handshake
    of $.agent.start. A step is what a thread does while it holds a lock. */
module Agents {
  import opened Wrappers

  type Id = nat
  datatype Message = Message(contents: nat, index: int)

  /** What the thread of a worker is doing between two steps. A waiter on the shared
      condition holds no lock; once signalled it will look again. */
  datatype Activity =
    | Running
    | InDequeue(signalled: bool)
    | InGetReport(signalled: bool)
    | Starting(child: Id)

  /** The local variables of one $.agent.start call, and how far both sides are. */
  datatype Handshake = Handshake(parent: Id, lock: Holder, didStart: bool, parentAt: ParentPoint, childAt: ChildPoint)
  datatype Holder = Unheld | ByParent | ByChild
  datatype ParentPoint = Calling | Checking | Waiting(signalled: bool) | Passed | Returned
  datatype ChildPoint = Unregistered | Registered | Locked | Set | Notified | Released

  datatype State = State(
    list: seq<Id>,                  // m_workers
    queues: map<Id, seq<Message>>,  // m_messages of each worker on the list
    reports: seq<string>,           // m_reports
    doing: map<Id, Activity>,       // one thread per worker that ever registered
    starts: map<Id, Handshake>)     // by child

  const INITIAL := State([], map[], [], map[], map[])

  datatype Event =
    | Register(w: Id)
    | Unregister(w: Id)
    | Broadcast(w: Id, m: Message)
    | TakeMessage(w: Id, m: Message)
    | WaitMessage(w: Id)
    | Report(w: Id, r: string)
    | TryReport(w: Id, answer: Option<string>)
    | TakeReport(w: Id, r: string)
    | WaitReport(w: Id)
    | Spurious(w: Id)
    | Spawn(w: Id, child: Id)
    | ParentLock(child: Id)
    | ParentCheck(child: Id)
    | ParentReturn(child: Id)
    | SpuriousStart(child: Id)
    | ChildLock(child: Id)
    | ChildSet(child: Id)
    | ChildNotify(child: Id)
    | ChildUnlock(child: Id)

  // ----- Which steps are possible

  /** The thread of `w` is outside any wait and its worker is on the list. */
  predicate Active(s: State, w: Id) {
    w in s.list && w in s.doing && s.doing[w] == Running
  }

  /** It may examine the condition of its wait loop: first entry, or woken up. */
  predicate Examining(s: State, w: Id, wait: Activity) {
    w in s.list && w in s.doing && (s.doing[w] == Running || s.doing[w] == wait)
  }

  predicate Enabled(s: State, e: Event) {
    match e
    case Register(w) => w !in s.doing && (w in s.starts ==> s.starts[w].childAt == Unregistered)
    case Unregister(w) => Active(s, w) && (w in s.starts ==> s.starts[w].childAt == Released)
    case Broadcast(w, _) => Active(s, w)
    case TakeMessage(w, m) =>
      Examining(s, w, InDequeue(true)) && w in s.queues && s.queues[w] != [] && s.queues[w][0] == m
    case WaitMessage(w) => Examining(s, w, InDequeue(true)) && w in s.queues && s.queues[w] == []
    case Report(w, _) => Active(s, w)
    case TryReport(w, answer) => Active(s, w) && answer == if s.reports == [] then None else Some(s.reports[0])
    case TakeReport(w, r) => Examining(s, w, InGetReport(true)) && s.reports != [] && s.reports[0] == r
    case WaitReport(w) => Examining(s, w, InGetReport(true)) && s.reports == []
    case Spurious(w) => w in s.doing && (s.doing[w].InDequeue? || s.doing[w].InGetReport?)
    case Spawn(w, child) => Active(s, w) && child !in s.starts && child !in s.doing
    case ParentLock(c) =>
      c in s.starts && s.starts[c].lock == Unheld
      && (s.starts[c].parentAt == Calling || s.starts[c].parentAt == Waiting(true))
    case ParentCheck(c) => c in s.starts && s.starts[c].parentAt == Checking
    case ParentReturn(c) => c in s.starts && s.starts[c].parentAt == Passed
    case SpuriousStart(c) => c in s.starts && s.starts[c].parentAt.Waiting?
    case ChildLock(c) => c in s.starts && s.starts[c].childAt == Registered && s.starts[c].lock == Unheld
    case ChildSet(c) => c in s.starts && s.starts[c].childAt == Locked
    case ChildNotify(c) => c in s.starts && s.starts[c].childAt == Set
    case ChildUnlock(c) => c in s.starts && s.starts[c].childAt == Notified
  }

  // ----- What they do

  function Signal(a: Activity): Activity {
    match a
    case InDequeue(_) => InDequeue(true)
    case InGetReport(_) => InGetReport(true)
    case _ => a
  }

  /** notifyAll on the shared condition. */
  function NotifyAll(s: State): State {
    s.(doing := map w | w in s.doing :: Signal(s.doing[w]))
  }

  /** One copy of the message for every worker on the list but the sender. */
  function Deliver(s: State, from: Id, m: Message): State {
    s.(queues := map w | w in s.queues :: if w in s.list && w != from then s.queues[w] + [m] else s.queues[w])
  }

  function Without(list: seq<Id>, w: Id): seq<Id> {
    if list == [] then []
    else if list[0] == w then Without(list[1..], w)
    else [list[0]] + Without(list[1..], w)
  }

  function Apply(s: State, e: Event): State
    requires Enabled(s, e)
  {
    match e
    case Register(w) =>
      s.(list := s.list + [w], queues := s.queues[w := []], doing := s.doing[w := Running],
         starts := if w in s.starts then s.starts[w := s.starts[w].(childAt := Registered)] else s.starts)
    case Unregister(w) => s.(list := Without(s.list, w))
    case Broadcast(w, m) => NotifyAll(Deliver(s, w, m))
    case TakeMessage(w, _) => s.(queues := s.queues[w := s.queues[w][1..]], doing := s.doing[w := Running])
    case WaitMessage(w) => s.(doing := s.doing[w := InDequeue(false)])
    case Report(_, r) => NotifyAll(s.(reports := s.reports + [r]))
    case TryReport(_, _) => if s.reports == [] then s else s.(reports := s.reports[1..])
    case TakeReport(w, _) => s.(reports := s.reports[1..], doing := s.doing[w := Running])
    case WaitReport(w) => s.(doing := s.doing[w := InGetReport(false)])
    case Spurious(w) => s.(doing := s.doing[w := Signal(s.doing[w])])
    case Spawn(w, child) =>
      s.(doing := s.doing[w := Starting(child)],
         starts := s.starts[child := Handshake(w, Unheld, false, Calling, Unregistered)])
    case ParentLock(c) => s.(starts := s.starts[c := s.starts[c].(lock := ByParent, parentAt := Checking)])
    case ParentCheck(c) =>
      if s.starts[c].didStart then s.(starts := s.starts[c := s.starts[c].(parentAt := Passed)])
      else s.(starts := s.starts[c := s.starts[c].(lock := Unheld, parentAt := Waiting(false))])
    case ParentReturn(c) =>
      s.(doing := s.doing[s.starts[c].parent := Running],
         starts := s.starts[c := s.starts[c].(lock := Unheld, parentAt := Returned)])
    case SpuriousStart(c) => s.(starts := s.starts[c := s.starts[c].(parentAt := Waiting(true))])
    case ChildLock(c) => s.(starts := s.starts[c := s.starts[c].(lock := ByChild, childAt := Locked)])
    case ChildSet(c) => s.(starts := s.starts[c := s.starts[c].(didStart := true, childAt := Set)])
    case ChildNotify(c) =>
      var h := s.starts[c];
      s.(starts := s.starts[c := h.(childAt := Notified,
                                    parentAt := if h.parentAt.Waiting? then Waiting(true) else h.parentAt)])
    case ChildUnlock(c) => s.(starts := s.starts[c := s.starts[c].(lock := Unheld, childAt := Released)])
  }

  /** The state after a run, if every step of it was possible. */
  function Run(trace: seq<Event>): Option<State> {
    if trace == [] then Some(INITIAL)
    else
      match Run(trace[..|trace| - 1])
      case Some(s) => if Enabled(s, trace[|trace| - 1]) then Some(Apply(s, trace[|trace| - 1])) else None
      case None => None
  }

  // ----- What every reachable state satisfies

  ghost predicate Distinct(list: seq<Id>) {
    forall i, j | 0 <= i < j < |list| :: list[i] != list[j]
  }

  ghost predicate ListInv(s: State) {
    && Distinct(s.list)
    && (forall w | w in s.list :: w in s.queues && w in s.doing)
    && (forall w | w in s.doing && s.doing[w] != Running :: w in s.list)
  }

  /** No wake-up is lost on the shared condition. */
  ghost predicate WaitersInv(s: State) {
    && (forall w | w in s.doing && s.doing[w] == InDequeue(false) :: w in s.list && w in s.queues && s.queues[w] == [])
    && (forall w | w in s.doing && s.doing[w] == InGetReport(false) :: s.reports == [])
  }

  ghost predicate HandshakeInv(h: Handshake) {
    && (h.lock == ByChild <==> h.childAt in {Locked, Set, Notified})
    && (h.lock == ByParent <==> h.parentAt in {Checking, Passed})
    && (h.didStart <==> h.childAt in {Set, Notified, Released})
    && (h.parentAt in {Passed, Returned} ==> h.childAt == Released)
    && (h.parentAt == Waiting(false) ==> h.childAt !in {Notified, Released})
  }

  ghost predicate StartsInv(s: State) {
    forall c | c in s.starts :: StartInv(s, c)
  }

  ghost predicate StartInv(s: State, c: Id)
    requires c in s.starts
  {
    var h := s.starts[c];
    && HandshakeInv(h)
    && (h.childAt != Unregistered <==> c in s.doing)
    && (h.parentAt != Returned ==> h.parent in s.doing && s.doing[h.parent] == Starting(c))
  }

  lemma {:induction false} WithoutRemoves(list: seq<Id>, w: Id)
    ensures forall x :: x in Without(list, w) <==> x in list && x != w
    ensures Distinct(list) ==> Distinct(Without(list, w))
  {
    if list != [] {
      WithoutRemoves(list[1..], w);
      assert list == [list[0]] + list[1..];
      var rest := Without(list[1..], w);
      if Distinct(list) && list[0] != w {
        forall k | 0 <= k < |rest|
          ensures rest[k] != list[0]
        {
          assert rest[k] in list[1..];
          var j :| 0 <= j < |list[1..]| && list[1..][j] == rest[k];
          assert list[j + 1] == rest[k];
        }
      }
    }
  }

  lemma {:induction false} StepKeepsList(s: State, e: Event)
    requires ListInv(s) && Enabled(s, e)
    ensures ListInv(Apply(s, e))
  {
    if e.Unregister? {
      WithoutRemoves(s.list, e.w);
    }
  }

  lemma {:induction false} StepKeepsWaiters(s: State, e: Event)
    requires ListInv(s) && WaitersInv(s) && Enabled(s, e)
    ensures WaitersInv(Apply(s, e))
  {
    forall w | w in Apply(s, e).doing && Apply(s, e).doing[w] == InDequeue(false)
      ensures w in Apply(s, e).list && w in Apply(s, e).queues && Apply(s, e).queues[w] == []
    {
      StepKeepsDequeuer(s, e, w);
    }
    forall w | w in Apply(s, e).doing && Apply(s, e).doing[w] == InGetReport(false)
      ensures Apply(s, e).reports == []
    {
      StepKeepsGetter(s, e, w);
    }
  }

  lemma {:induction false} StepKeepsDequeuer(s: State, e: Event, w: Id)
    requires ListInv(s) && WaitersInv(s) && Enabled(s, e)
    requires w in Apply(s, e).doing && Apply(s, e).doing[w] == InDequeue(false)
    ensures w in Apply(s, e).list && w in Apply(s, e).queues && Apply(s, e).queues[w] == []
  {
    if e.Unregister? {
      WithoutRemoves(s.list, e.w);
    }
  }

  lemma {:induction false} StepKeepsGetter(s: State, e: Event, w: Id)
    requires WaitersInv(s) && Enabled(s, e)
    requires w in Apply(s, e).doing && Apply(s, e).doing[w] == InGetReport(false)
    ensures Apply(s, e).reports == []
  {
  }

  lemma {:induction false} StepKeepsStarts(s: State, e: Event)
    requires StartsInv(s) && Enabled(s, e)
    ensures StartsInv(Apply(s, e))
  {
    forall c | c in Apply(s, e).starts
      ensures StartInv(Apply(s, e), c)
    {
      StepKeepsStart(s, e, c);
    }
  }

  lemma {:induction false} StepKeepsStart(s: State, e: Event, c: Id)
    requires StartsInv(s) && Enabled(s, e) && c in Apply(s, e).starts
    ensures StartInv(Apply(s, e), c)
  {
    StepKeepsHandshake(s, e, c);
    StepKeepsChild(s, e, c);
    StepKeepsParent(s, e, c);
  }

  lemma {:induction false} StepKeepsHandshake(s: State, e: Event, c: Id)
    requires c in s.starts ==> HandshakeInv(s.starts[c])
    requires Enabled(s, e) && c in Apply(s, e).starts
    ensures HandshakeInv(Apply(s, e).starts[c])
  {
  }

  lemma {:induction false} StepKeepsChild(s: State, e: Event, c: Id)
    requires StartsInv(s) && Enabled(s, e) && c in Apply(s, e).starts
    ensures Apply(s, e).starts[c].childAt != Unregistered <==> c in Apply(s, e).doing
  {
    hide HandshakeInv;
    assert c in s.starts ==> StartInv(s, c);
    match e
    case ParentReturn(d) => assert StartInv(s, d);
    case _ =>
  }

  lemma {:induction false} StepKeepsParent(s: State, e: Event, c: Id)
    requires StartsInv(s) && Enabled(s, e) && c in Apply(s, e).starts
    ensures var h := Apply(s, e).starts[c];
            h.parentAt != Returned ==> h.parent in Apply(s, e).doing && Apply(s, e).doing[h.parent] == Starting(c)
  {
    hide HandshakeInv;
    assert c in s.starts ==> StartInv(s, c);
    match e
    case ParentReturn(d) => assert StartInv(s, d);
    case _ =>
  }

  lemma {:induction false} Reachable(trace: seq<Event>)
    requires Run(trace).Some?
    ensures var s := Run(trace).value; ListInv(s) && WaitersInv(s) && StartsInv(s)
  {
    if trace != [] {
      var before := trace[..|trace| - 1];
      Reachable(before);
      StepKeepsList(Run(before).value, trace[|trace| - 1]);
      StepKeepsWaiters(Run(before).value, trace[|trace| - 1]);
      StepKeepsStarts(Run(before).value, trace[|trace| - 1]);
    }
  }

  // ----- Messages and reports, read off a run without looking at any state

  /** Registered and not unregistered since. */
  predicate OnList(trace: seq<Event>, w: Id) {
    if trace == [] then false
    else
      match trace[|trace| - 1]
      case Register(x) => x == w || OnList(trace[..|trace| - 1], w)
      case Unregister(x) => x != w && OnList(trace[..|trace| - 1], w)
      case _ => OnList(trace[..|trace| - 1], w)
  }

  /** What the others broadcast since `w` registered, in the order of the lock. */
  function Owed(trace: seq<Event>, w: Id): seq<Message> {
    if trace == [] then []
    else
      var before := trace[..|trace| - 1];
      if trace[|trace| - 1] == Register(w) then []
      else Owed(before, w) + if OnList(before, w) then SentTo(trace[|trace| - 1], w) else []
  }

  /** What `w` has dequeued. */
  function Taken(trace: seq<Event>, w: Id): seq<Message> {
    if trace == [] then [] else Taken(trace[..|trace| - 1], w) + TakenBy(trace[|trace| - 1], w)
  }

  function MadeBy(e: Event): seq<string> {
    match e case Report(_, r) => [r] case _ => []
  }

  function HandedBy(e: Event): seq<string> {
    match e
    case TakeReport(_, r) => [r]
    case TryReport(_, Some(r)) => [r]
    case _ => []
  }

  function Made(trace: seq<Event>): seq<string> {
    if trace == [] then [] else Made(trace[..|trace| - 1]) + MadeBy(trace[|trace| - 1])
  }

  function Handed(trace: seq<Event>): seq<string> {
    if trace == [] then [] else Handed(trace[..|trace| - 1]) + HandedBy(trace[|trace| - 1])
  }

  /** What leaves a queue and what stays, against what was there and what arrives. */
  lemma {:induction false} Regroup<T>(gone: seq<T>, leaving: seq<T>, stays: seq<T>, was: seq<T>, arriving: seq<T>)
    requires leaving + stays == was + arriving
    ensures (gone + leaving) + stays == (gone + was) + arriving
  {
    assert (gone + leaving) + stays == gone + (leaving + stays);
    assert (gone + was) + arriving == gone + (was + arriving);
  }

  // ----- What single steps do to the parts

  function TakenBy(e: Event, w: Id): seq<Message> {
    match e case TakeMessage(x, m) => (if x == w then [m] else []) case _ => []
  }

  function SentTo(e: Event, w: Id): seq<Message> {
    match e case Broadcast(x, m) => (if x != w then [m] else []) case _ => []
  }

  lemma {:induction false} StepQueue(s: State, e: Event, w: Id)
    requires ListInv(s) && Enabled(s, e) && w in s.list
    ensures e != Register(w) && w in s.queues && w in Apply(s, e).queues
    ensures TakenBy(e, w) + Apply(s, e).queues[w] == s.queues[w] + SentTo(e, w)
  {
    if e.TakeMessage? && e.w == w {
      assert s.queues[w] == [e.m] + s.queues[w][1..];
    }
  }

  lemma {:induction false} StepReports(s: State, e: Event)
    requires Enabled(s, e)
    ensures HandedBy(e) + Apply(s, e).reports == s.reports + MadeBy(e)
  {
  }

  lemma {:induction false} StepDoing(s: State, e: Event)
    requires Enabled(s, e) && StartsInv(s)
    ensures Apply(s, e).doing.Keys == s.doing.Keys + if e.Register? then {e.w} else {}
    ensures e.TakeMessage? ==> e.w in s.doing
  {
  }

  lemma {:induction false} StepStarts(s: State, e: Event, c: Id)
    requires Enabled(s, e) && c in Apply(s, e).starts
    ensures if c in s.starts then Apply(s, e).starts[c].parent == s.starts[c].parent
            else Apply(s, e).starts[c].parent != c
  {
  }

  /** The list holds exactly the workers registered and not unregistered, so the
      assertion in the destructor cannot fail. */
  lemma {:induction false} ListIsExact(trace: seq<Event>, w: Id)
    requires Run(trace).Some?
    ensures w in Run(trace).value.list <==> OnList(trace, w)
  {
    if trace != [] {
      var before := trace[..|trace| - 1];
      ListIsExact(before, w);
      if trace[|trace| - 1].Unregister? {
        WithoutRemoves(Run(before).value.list, trace[|trace| - 1].w);
      }
    }
  }

  lemma {:induction false} NothingTakenBefore(trace: seq<Event>, w: Id)
    requires Run(trace).Some? && w !in Run(trace).value.doing
    ensures Taken(trace, w) == []
  {
    hide Apply, Enabled;
    if trace != [] {
      Reachable(trace[..|trace| - 1]);
      StepDoing(Run(trace[..|trace| - 1]).value, trace[|trace| - 1]);
      NothingTakenBefore(trace[..|trace| - 1], w);
    }
  }

  /** Without loss, duplication or reordering: what a registered worker took, followed
      by what is queued for it, is what the others broadcast since it registered. */
  lemma {:induction false} DeliveryIsExact(trace: seq<Event>, w: Id)
    requires Run(trace).Some? && OnList(trace, w)
    ensures w in Run(trace).value.queues
    ensures Taken(trace, w) + Run(trace).value.queues[w] == Owed(trace, w)
  {
    hide Apply, Enabled, TakenBy, SentTo;
    var before, last := trace[..|trace| - 1], trace[|trace| - 1];
    var s := Run(before).value;
    Reachable(before);
    if last == Register(w) {
      RegisterStarts(before, w);
    } else {
      ListIsExact(before, w);
      DeliveryIsExact(before, w);
      StepQueue(s, last, w);
      Regroup(Taken(before, w), TakenBy(last, w), Run(trace).value.queues[w], s.queues[w], SentTo(last, w));
    }
  }

  lemma {:induction false} RegisterStarts(before: seq<Event>, w: Id)
    requires Run(before).Some? && Enabled(Run(before).value, Register(w))
    ensures w in Apply(Run(before).value, Register(w)).queues
    ensures Taken(before, w) + TakenBy(Register(w), w) + Apply(Run(before).value, Register(w)).queues[w] == []
  {
    NothingTakenBefore(before, w);
  }

  /** Reports leave in the order in which they were made, each once. */
  lemma {:induction false} ReportsAreFifo(trace: seq<Event>)
    requires Run(trace).Some?
    ensures Handed(trace) + Run(trace).value.reports == Made(trace)
  {
    hide Apply, Enabled, MadeBy, HandedBy;
    if trace != [] {
      var before, last := trace[..|trace| - 1], trace[|trace| - 1];
      ReportsAreFifo(before);
      StepReports(Run(before).value, last);
      Regroup(Handed(before), HandedBy(last), Run(trace).value.reports, Run(before).value.reports, MadeBy(last));
    }
  }

  /** A waiter that nobody signalled has nothing to take, and a waiter that is owed
      something can go on. */
  lemma {:induction false} NoLostWakeUp(trace: seq<Event>, w: Id)
    requires Run(trace).Some? && w in Run(trace).value.doing
    ensures var s := Run(trace).value;
            && (s.doing[w] == InDequeue(false) ==> Taken(trace, w) == Owed(trace, w))
            && (s.doing[w] == InGetReport(false) ==> Handed(trace) == Made(trace))
            && (s.doing[w].InDequeue? && Taken(trace, w) != Owed(trace, w) ==>
                  exists m :: Enabled(s, TakeMessage(w, m)))
            && (s.doing[w].InGetReport? && Handed(trace) != Made(trace) ==>
                  exists r :: Enabled(s, TakeReport(w, r)))
  {
    hide Apply, Run, Owed, Taken, OnList, Made, Handed;
    var s := Run(trace).value;
    Reachable(trace);
    ListIsExact(trace, w);
    ReportsAreFifo(trace);
    if s.doing[w] != Running {
      DeliveryIsExact(trace, w);
      if s.queues[w] != [] && s.doing[w].InDequeue? {
        assert Enabled(s, TakeMessage(w, s.queues[w][0]));
      }
    }
    if s.reports != [] && s.doing[w].InGetReport? {
      assert Enabled(s, TakeReport(w, s.reports[0]));
    }
  }

  // ----- Which threads can run, read off a run without looking at any state

  /** The worker whose script called the start of `child`. */
  function StarterOf(trace: seq<Event>, child: Id): Option<Id> {
    if trace == [] then None
    else
      match trace[|trace| - 1]
      case Spawn(w, c) => if c == child then Some(w) else StarterOf(trace[..|trace| - 1], child)
      case _ => StarterOf(trace[..|trace| - 1], child)
  }

  /** It went to sleep, or into a start, and has not come back. */
  predicate Blocked(trace: seq<Event>, w: Id) {
    if trace == [] then false
    else
      var before := trace[..|trace| - 1];
      match trace[|trace| - 1]
      case Register(x) => x != w && Blocked(before, w)
      case TakeMessage(x, _) => x != w && Blocked(before, w)
      case TakeReport(x, _) => x != w && Blocked(before, w)
      case WaitMessage(x) => x == w || Blocked(before, w)
      case WaitReport(x) => x == w || Blocked(before, w)
      case Spawn(x, _) => x == w || Blocked(before, w)
      case ParentReturn(c) => StarterOf(before, c) != Some(w) && Blocked(before, w)
      case _ => Blocked(before, w)
  }

  lemma {:induction false} StarterIsExact(trace: seq<Event>, child: Id)
    requires Run(trace).Some?
    ensures StarterOf(trace, child) == if child in Run(trace).value.starts then Some(Run(trace).value.starts[child].parent)
                                       else None
  {
    if trace != [] {
      StarterIsExact(trace[..|trace| - 1], child);
      StepStarter(Run(trace[..|trace| - 1]).value, trace[|trace| - 1], child);
    }
  }

  lemma {:induction false} StepStarter(s: State, e: Event, child: Id)
    requires Enabled(s, e)
    ensures child in Apply(s, e).starts <==> child in s.starts || (e.Spawn? && e.child == child)
    ensures child in s.starts ==> child in Apply(s, e).starts && Apply(s, e).starts[child].parent == s.starts[child].parent
    ensures e.Spawn? && e.child == child ==> child !in s.starts && Apply(s, e).starts[child].parent == e.w
  {
  }

  /** What one step does to the thread of `w`. */
  predicate Wakes(s: State, e: Event, w: Id) {
    || e == Register(w) || (e.TakeMessage? && e.w == w) || (e.TakeReport? && e.w == w)
    || (e.ParentReturn? && e.child in s.starts && s.starts[e.child].parent == w)
  }

  predicate Blocks(e: Event, w: Id) {
    e == WaitMessage(w) || e == WaitReport(w) || (e.Spawn? && e.w == w)
  }

  lemma {:induction false} StepBlocks(s: State, e: Event, w: Id)
    requires Enabled(s, e) && ListInv(s) && StartsInv(s)
    ensures w in Apply(s, e).doing ==> (Apply(s, e).doing[w] == Running
              <==> Wakes(s, e, w) || (w in s.doing && s.doing[w] == Running && !Blocks(e, w)))
  {
    hide HandshakeInv;
    if e.ParentReturn? {
      assert StartInv(s, e.child);
    }
  }

  lemma {:induction false} StepKnows(s: State, e: Event, w: Id)
    requires Enabled(s, e) && ListInv(s) && StartsInv(s)
    ensures w in Apply(s, e).doing <==> w in s.doing || e == Register(w)
  {
    hide HandshakeInv;
    if e.ParentReturn? {
      assert StartInv(s, e.child);
    }
  }

  /** A thread is out of any wait and any start exactly when its last such step says so. */
  lemma {:induction false} RunningIsExact(trace: seq<Event>, w: Id)
    requires Run(trace).Some? && w in Run(trace).value.doing
    ensures Run(trace).value.doing[w] == Running <==> !Blocked(trace, w)
  {
    hide Apply, Enabled;
    var before, e := trace[..|trace| - 1], trace[|trace| - 1];
    var s := Run(before).value;
    Reachable(before);
    StepBlocks(s, e, w);
    StepKnows(s, e, w);
    NotBlockedBefore(before, w);
    if w in s.doing {
      RunningIsExact(before, w);
    }
    if e.ParentReturn? {
      StarterIsExact(before, e.child);
    }
  }

  lemma {:induction false} NotBlockedBefore(trace: seq<Event>, w: Id)
    requires Run(trace).Some?
    ensures w !in Run(trace).value.doing ==> !Blocked(trace, w)
  {
    hide Apply, Enabled;
    if trace != [] && w !in Run(trace).value.doing {
      var before, e := trace[..|trace| - 1], trace[|trace| - 1];
      Reachable(before);
      NotBlockedBefore(before, w);
      StepKnows(Run(before).value, e, w);
      OnlyTheRegisteredBlock(Run(before).value, e, w);
    }
  }

  lemma {:induction false} OnlyTheRegisteredBlock(s: State, e: Event, w: Id)
    requires Enabled(s, e) && w !in s.doing
    ensures !Blocks(e, w)
  {
  }

  /** So a worker can broadcast, report or unregister as soon as it is on the list, is not
      waiting, and no start of its own is under way; and then any message will do. */
  lemma {:induction false} ActiveIsExact(trace: seq<Event>, w: Id)
    requires Run(trace).Some?
    ensures Active(Run(trace).value, w) <==> OnList(trace, w) && !Blocked(trace, w)
    ensures forall m :: Enabled(Run(trace).value, Broadcast(w, m)) <==> OnList(trace, w) && !Blocked(trace, w)
  {
    Reachable(trace);
    ListIsExact(trace, w);
    if w in Run(trace).value.doing {
      RunningIsExact(trace, w);
    }
  }

  // ----- $.agent.start

  /** Steps in which the new worker's thread touches the starter's variables. */
  predicate TouchesHandshake(e: Event, child: Id) {
    e == ChildLock(child) || e == ChildSet(child) || e == ChildNotify(child) || e == ChildUnlock(child)
  }

  /** Once $.agent.start has returned, the new worker has registered, is on the list
      unless it unregistered since, and can no longer touch the starter's variables;
      and what the starter broadcasts next is queued for it. */
  lemma {:induction false} StartHandsOver(trace: seq<Event>, child: Id)
    requires Run(trace).Some?
    requires child in Run(trace).value.starts && Run(trace).value.starts[child].parentAt == Returned
    ensures child in Run(trace).value.doing
    ensures OnList(trace, child) || Unregister(child) in trace
    ensures forall e | TouchesHandshake(e, child) :: !Enabled(Run(trace).value, e)
    ensures forall m | OnList(trace, child) && Enabled(Run(trace).value, Broadcast(Run(trace).value.starts[child].parent, m)) ::
              var s := Run(trace).value;
              var s' := Apply(s, Broadcast(s.starts[child].parent, m));
              child in s.queues && child in s'.queues && s'.queues[child] == s.queues[child] + [m]
  {
    hide Run, OnList;
    Reachable(trace);
    RegisteredOrGone(trace, child);
    ListIsExact(trace, child);
    ParentIsNotChild(trace, child);
  }

  lemma {:induction false} RegisteredOrGone(trace: seq<Event>, w: Id)
    requires Run(trace).Some? && w in Run(trace).value.doing
    ensures OnList(trace, w) || Unregister(w) in trace
  {
    var before, last := trace[..|trace| - 1], trace[|trace| - 1];
    Reachable(before);
    if last != Register(w) {
      assert last == Unregister(w) ==> last in trace;
      RegisteredOrGone(before, w);
    }
  }

  lemma {:induction false} ParentIsNotChild(trace: seq<Event>, child: Id)
    requires Run(trace).Some? && child in Run(trace).value.starts
    ensures Run(trace).value.starts[child].parent != child
  {
    hide Apply, Enabled;
    StepStarts(Run(trace[..|trace| - 1]).value, trace[|trace| - 1], child);
    if child in Run(trace[..|trace| - 1]).value.starts {
      ParentIsNotChild(trace[..|trace| - 1], child);
    }
  }

  /** From the moment the new worker has registered until the start returns, one of the
      two threads always has a next step, and once the worker is done it is the starter. */
  lemma {:induction false} StarterIsWoken(trace: seq<Event>, child: Id)
    requires Run(trace).Some? && child in Run(trace).value.starts
    requires Run(trace).value.starts[child].childAt != Unregistered
    requires Run(trace).value.starts[child].parentAt != Returned
    ensures StartGoesOn(Run(trace).value, child)
  {
    hide Run, Apply, StartGoesOn;
    Reachable(trace);
    HandshakeGoesOn(Run(trace).value, child);
  }

  ghost predicate StartGoesOn(s: State, child: Id) {
    || Enabled(s, ParentLock(child)) || Enabled(s, ParentCheck(child)) || Enabled(s, ParentReturn(child))
    || (child in s.starts && s.starts[child].childAt != Released
        && exists e :: TouchesHandshake(e, child) && Enabled(s, e))
  }

  lemma {:induction false} HandshakeGoesOn(s: State, child: Id)
    requires child in s.starts && HandshakeInv(s.starts[child])
    requires s.starts[child].childAt != Unregistered && s.starts[child].parentAt != Returned
    ensures StartGoesOn(s, child)
  {
    var h := s.starts[child];
    var e := match h.childAt
      case Registered => ChildLock(child)
      case Locked => ChildSet(child)
      case Set => ChildNotify(child)
      case _ => ChildUnlock(child);
    assert TouchesHandshake(e, child);
    if h.childAt != Released && !(h.childAt == Registered && h.lock != Unheld) {
      assert Enabled(s, e);
    }
  }

  /** A worker that is inside a start is inside one of its own that has not returned. */
  ghost predicate StartingInv(s: State) {
    forall w | w in s.doing && s.doing[w].Starting? :: IsStartedBy(s, s.doing[w].child, w)
  }

  ghost predicate IsStartedBy(s: State, c: Id, w: Id) {
    c in s.starts && s.starts[c].parent == w && s.starts[c].parentAt != Returned
  }

  lemma {:induction false} StepKeepsStarting(s: State, e: Event, w: Id)
    requires Enabled(s, e) && StartsInv(s) && StartingInv(s)
    requires w in Apply(s, e).doing && Apply(s, e).doing[w].Starting?
    ensures IsStartedBy(Apply(s, e), Apply(s, e).doing[w].child, w)
  {
    if w in s.doing && s.doing[w].Starting? {
      assert IsStartedBy(s, s.doing[w].child, w);
      assert StartInv(s, s.doing[w].child);
    }
    if e.ParentReturn? {
      assert StartInv(s, e.child);
    }
  }

  lemma {:induction false} InsideOwnStart(trace: seq<Event>)
    requires Run(trace).Some?
    ensures StartingInv(Run(trace).value)
  {
    hide Apply, Enabled;
    if trace != [] {
      var before := trace[..|trace| - 1];
      Reachable(before);
      InsideOwnStart(before);
      var s := Run(trace).value;
      forall w | w in s.doing && s.doing[w].Starting?
        ensures IsStartedBy(s, s.doing[w].child, w)
      {
        StepKeepsStarting(Run(before).value, trace[|trace| - 1], w);
      }
    }
  }

  /** When a start returns, the script of the starter goes on: it is on the list, and can
      broadcast anything. */
  lemma {:induction false} StarterGoesOn(trace: seq<Event>, child: Id)
    requires Run(trace + [ParentReturn(child)]).Some?
    ensures var after := trace + [ParentReturn(child)];
            && StarterOf(trace, child).Some?
            && var w := StarterOf(trace, child).value;
               && OnList(after, w) && Active(Run(after).value, w)
               && forall m :: Enabled(Run(after).value, Broadcast(w, m))
  {
    hide Apply, OnList;
    var after := trace + [ParentReturn(child)];
    assert after[..|trace|] == trace;
    StarterIsExact(trace, child);
    Reachable(trace);
    assert StartInv(Run(trace).value, child);
    var w := Run(trace).value.starts[child].parent;
    ListIsExact(after, w);
    ListIsExact(trace, w);
    ActiveIsExact(after, w);
    OnListStays(trace, ParentReturn(child), w);
    assert !Blocked(after, w);
  }

  lemma {:induction false} OnListStays(trace: seq<Event>, e: Event, w: Id)
    requires e.ParentReturn?
    ensures OnList(trace + [e], w) == OnList(trace, w)
  {
    assert (trace + [e])[..|trace|] == trace;
  }
}
