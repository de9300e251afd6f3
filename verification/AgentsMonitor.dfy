/** The Workers object of the jsc shell. Each method is what one thread does from
    taking the lock to releasing it (or to falling asleep on the condition), and is
    proved to be one step of the state machine in Agents. */
module AgentsMonitor {
  import opened Wrappers
  import opened Agents

  class Workers {
    var list: seq<Id>
    var queues: map<Id, seq<Message>>
    var reports: seq<string>
    var doing: map<Id, Activity>
    ghost var starts: map<Id, Handshake>

    ghost function View(): State
      reads this
    {
      State(list, queues, reports, doing, starts)
    }

    constructor ()
      ensures View() == INITIAL
    {
      list, queues, reports, doing, starts := [], map[], [], map[], map[];
    }

    /** The worker's constructor: it puts itself at the end of the list. */
    method Register(w: Id)
      requires Enabled(View(), Event.Register(w))
      modifies this
      ensures View() == Apply(old(View()), Event.Register(w))
    {
      list := list + [w];
      queues := queues[w := []];
      doing := doing[w := Running];
      if w in starts {
        starts := starts[w := starts[w].(childAt := Registered)];
      }
    }

    /** The worker's destructor, which asserts that it is on the list. */
    method Unregister(w: Id)
      requires Enabled(View(), Event.Unregister(w))
      modifies this`list
      ensures View() == Apply(old(View()), Event.Unregister(w))
    {
      list := Without(list, w);
    }

    method NotifyAll()
      modifies this`doing
      ensures View() == Agents.NotifyAll(old(View()))
    {
      doing := map w | w in doing :: Signal(doing[w]);
    }

    /** What broadcasting does for one worker: it appends to the worker's own queue. */
    method Enqueue(worker: Id, m: Message)
      requires worker in queues
      modifies this`queues
      ensures queues == old(queues)[worker := old(queues)[worker] + [m]]
    {
      queues := queues[worker := queues[worker] + [m]];
    }

    method Broadcast(current: Id, m: Message)
      requires ListInv(View()) && Enabled(View(), Event.Broadcast(current, m))
      modifies this`queues, this`doing
      ensures View() == Apply(old(View()), Event.Broadcast(current, m))
    {
      hide Signal, Apply, Enabled, Deliver, Delivered, Agents.NotifyAll;
      ghost var was := View();
      BroadcastDelivers(was, current, m);
      assert list[..0] == [];
      for i := 0 to |list|
        invariant queues == Delivered(was.queues, list[..i], current, m) && doing == was.doing
      {
        OneMoreWorker(was.queues, list, i, current, m);
        if list[i] != current {
          Enqueue(list[i], m);
        }
      }
      assert list[..|list|] == list;
      assert View() == Deliver(was, current, m);
      NotifyAll();
    }

    /** One look at the queue: take the first message, or fall asleep. */
    method Dequeue(current: Id) returns (m: Option<Message>)
      requires Examining(View(), current, InDequeue(true)) && current in queues
      modifies this`queues, this`doing
      ensures match m
              case Some(message) =>
                && Enabled(old(View()), TakeMessage(current, message))
                && View() == Apply(old(View()), TakeMessage(current, message))
              case None =>
                && Enabled(old(View()), WaitMessage(current))
                && View() == Apply(old(View()), WaitMessage(current))
    {
      if queues[current] == [] {
        doing := doing[current := InDequeue(false)];
        return None;
      }
      m := Some(queues[current][0]);
      queues := queues[current := queues[current][1..]];
      doing := doing[current := Running];
    }

    method Report(current: Id, r: string)
      requires Enabled(View(), Event.Report(current, r))
      modifies this`reports, this`doing
      ensures View() == Apply(old(View()), Event.Report(current, r))
    {
      reports := reports + [r];
      NotifyAll();
    }

    method TryGetReport(current: Id) returns (answer: Option<string>)
      requires Active(View(), current)
      modifies this`reports
      ensures Enabled(old(View()), TryReport(current, answer))
      ensures View() == Apply(old(View()), TryReport(current, answer))
    {
      if reports == [] {
        return None;
      }
      answer := Some(reports[0]);
      reports := reports[1..];
    }

    method GetReport(current: Id) returns (r: Option<string>)
      requires Examining(View(), current, InGetReport(true))
      modifies this`reports, this`doing
      ensures match r
              case Some(text) =>
                && Enabled(old(View()), TakeReport(current, text))
                && View() == Apply(old(View()), TakeReport(current, text))
              case None =>
                && Enabled(old(View()), WaitReport(current))
                && View() == Apply(old(View()), WaitReport(current))
    {
      if reports == [] {
        doing := doing[current := InGetReport(false)];
        return None;
      }
      r := Some(reports[0]);
      reports := reports[1..];
      doing := doing[current := Running];
    }
  }

  /** The queues after a message has been sent to the workers `to`, but not to `from`. */
  ghost function Delivered(queues: map<Id, seq<Message>>, to: seq<Id>, from: Id, m: Message): map<Id, seq<Message>> {
    map w | w in queues :: if w in to && w != from then queues[w] + [m] else queues[w]
  }

  lemma {:induction false} BroadcastDelivers(s: State, from: Id, m: Message)
    requires Enabled(s, Event.Broadcast(from, m)) && ListInv(s)
    ensures Delivered(s.queues, [], from, m) == s.queues
    ensures Deliver(s, from, m) == s.(queues := Delivered(s.queues, s.list, from, m))
    ensures Apply(s, Event.Broadcast(from, m)) == Agents.NotifyAll(Deliver(s, from, m))
  {
    hide Signal;
    assert Deliver(s, from, m).queues == Delivered(s.queues, s.list, from, m);
  }

  lemma {:induction false} OneMoreWorker(queues: map<Id, seq<Message>>, list: seq<Id>, i: nat, from: Id, m: Message)
    requires Distinct(list) && i < |list| && list[i] in queues
    ensures list[i] in Delivered(queues, list[..i], from, m)
    ensures var before := Delivered(queues, list[..i], from, m);
            Delivered(queues, list[..i + 1], from, m)
            == if list[i] == from then before else before[list[i] := before[list[i]] + [m]]
  {
    assert list[..i + 1] == list[..i] + [list[i]];
    assert list[i] !in list[..i];
  }
}
