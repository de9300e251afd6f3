/** What WebDriver commands ask of the backend, and what they leave: said request by request
    and apart from the functions that specify them. */
module WebDriverEffects {
  import opened Wrappers

  import opened WebDriverContexts

  // ----- Prompts

  predicate Dismisses(behavior: PromptBehavior) { behavior.Dismiss? || behavior.DismissAndNotify? }

  predicate Accepts(behavior: PromptBehavior) { behavior.Accept? || behavior.AcceptAndNotify? }

  predicate Notifies(behavior: PromptBehavior) { !behavior.Dismiss? && !behavior.Accept? }

  /** What is asked for once a prompt has been found open: its text if there is to be an
      error about it, and then that it be dismissed or accepted. */
  function Reaction(behavior: PromptBehavior, window: string): seq<Request> {
    (if Notifies(behavior) then [Request(DialogText, window, None)] else [])
    + (if Dismisses(behavior) then [Request(DismissDialog, window, None)]
       else if Accepts(behavior) then [Request(AcceptDialog, window, None)]
       else [])
  }

  function Count(requests: seq<Request>, message: Message): nat {
    if requests == [] then 0
    else (if requests[0].message == message then 1 else 0) + Count(requests[1..], message)
  }

  /** A prompt is dismissed once and never accepted, or the other way round, or neither; and
      its text is asked for first. */
  lemma {:induction false} ReactionCounts(behavior: PromptBehavior, window: string)
    ensures Count(Reaction(behavior, window), DismissDialog) == if Dismisses(behavior) then 1 else 0
    ensures Count(Reaction(behavior, window), AcceptDialog) == if Accepts(behavior) then 1 else 0
    ensures Count(Reaction(behavior, window), DialogText) == if Notifies(behavior) then 1 else 0
    ensures Notifies(behavior) ==> Reaction(behavior, window)[0].message == DialogText
    ensures Dismisses(behavior) <==> behavior in {Dismiss, DismissAndNotify}
    ensures Accepts(behavior) <==> behavior in {Accept, AcceptAndNotify}
    ensures Notifies(behavior) <==> behavior in {DismissAndNotify, AcceptAndNotify, Ignore}
  {
    var text, no, yes := Request(DialogText, window, None), Request(DismissDialog, window, None), Request(AcceptDialog, window, None);
    match behavior
    case Dismiss => assert Reaction(behavior, window) == [no];
    case Accept => assert Reaction(behavior, window) == [yes];
    case DismissAndNotify =>
      assert Reaction(behavior, window) == [text, no];
      CountTwo(text, no);
    case AcceptAndNotify =>
      assert Reaction(behavior, window) == [text, yes];
      CountTwo(text, yes);
    case Ignore => assert Reaction(behavior, window) == [text];
  }

  lemma {:induction false} CountTwo(a: Request, b: Request)
    ensures forall m :: Count([a, b], m) == (if a.message == m then 1 else 0) + (if b.message == m then 1 else 0)
  {
    assert [a, b][1..] == [b] && [b][1..] == [];
    forall m
      ensures Count([a, b], m) == (if a.message == m then 1 else 0) + (if b.message == m then 1 else 0)
    {
      assert Count([b], m) == if b.message == m then 1 else 0;
    }
  }

  /** What is reported of an open prompt after all has been asked for. */
  function PromptError(behavior: PromptBehavior, answer: Reply): Option<Error> {
    if !behavior.Ignore? && answer.Failed? then Some(answer.error)
    else if Notifies(behavior) then Some(UnexpectedAlertOpen)
    else None
  }

  /** `o` comes of `s` by dealing with prompts. */
  ghost predicate IsPrompted(s: View, o: Outcome, window: string, behavior: PromptBehavior, b: Backend) {
    var asked := s.sent + [Request(IsShowingDialog, window, None)];
    var reply := b.reply(asked);
    && o.Done? && o.view.contexts == s.contexts
    && if reply.Answer? && reply.flag == Some(true) then
         && o.view.sent == asked + Reaction(behavior, window)
         && o.error == PromptError(behavior, b.reply(o.view.sent))
       else
         && o.view.sent == asked
         && o.error == match reply
                       case Failed(e) => Some(e)
                       case Empty => Some(UnknownError)
                       case Answer(_, flag) => if flag == Some(false) then None else Some(UnknownError)
  }

  lemma {:induction false} PromptsAreHandled(s: View, behavior: PromptBehavior, b: Backend)
    requires s.contexts.top.Some?
    ensures IsPrompted(s, HandleUserPrompts(s, behavior, b), s.contexts.top.value, behavior, b)
  {
    var window := s.contexts.top.value;
    var told := Tell(s, IsShowingDialog, window, None);
    var reply := b.reply(told.sent);
    if reply.Answer? && reply.flag == Some(true) {
      ReactsTo(told, window, behavior, b);
    }
  }

  lemma {:induction false} ReactsTo(told: View, window: string, behavior: PromptBehavior, b: Backend)
    requires told.contexts.top == Some(window)
    ensures var o := HandleUnexpectedAlert(told, behavior, b);
            && o.Done? && o.view.contexts == told.contexts
            && o.view.sent == told.sent + Reaction(behavior, window)
            && o.error == PromptError(behavior, b.reply(o.view.sent))
  {
    var texted := told.sent + [Request(DialogText, window, None)];
    match behavior
    case DismissAndNotify =>
      assert texted + [Request(DismissDialog, window, None)] == told.sent + Reaction(behavior, window);
    case AcceptAndNotify =>
      assert texted + [Request(AcceptDialog, window, None)] == told.sent + Reaction(behavior, window);
    case _ =>
  }

  // ----- Everything that is sent stays sent

  lemma {:induction false} AskingExtends(s: View, messages: nat, b: Backend)
    requires s.contexts.top.Some?
    ensures AskAll(s, messages, b).Done? && s.sent <= AskAll(s, messages, b).view.sent
    ensures AskAll(s, messages, b).view.contexts == s.contexts
  {
    AskingOnlyAsks(s, messages, b);
    AskingKeepsContexts(s, messages, b);
  }

  lemma {:induction false} ClickExtends(s: View, behavior: PromptBehavior, b: Backend)
    requires Coherent(s.contexts) && s.contexts.top.Some?
    ensures Click(s, behavior, b).Done? && s.sent <= Click(s, behavior, b).view.sent
  {
    hide HandleUserPrompts, AskAll;
    AskingExtends(s, 2, b);
    var located := AskAll(s, 2, b).view;
    PromptsAreHandled(located, behavior, b);
    AskingExtends(HandleUserPrompts(located, behavior, b).view, 1, b);
    var named := TagName(located, behavior, b).view;
    assert located.sent <= named.sent && named.contexts == s.contexts;
    AskingExtends(named, 1, b);
  }

  lemma {:induction false} PerformExtends(s: View, command: Command, behavior: PromptBehavior, b: Backend)
    requires Coherent(s.contexts) && !Refused(s.contexts, command)
    ensures Perform(s, command, behavior, b).Done? && s.sent <= Perform(s, command, behavior, b).view.sent
  {
    hide Click, AskAll;
    match command
    case Query(_, _, _, messages) => AskingExtends(s, messages, b);
    case ElementClick => ClickExtends(s, behavior, b);
    case _ =>
  }

  /** Every command that minds prompts deals with them after its wait and its guard, and
      does nothing else if that fails. */
  lemma {:induction false} CommandHandlesPrompts(s: View, command: Command, behavior: PromptBehavior, b: Backend)
    returns (prompted: Outcome)
    requires Coherent(s.contexts) && Prompts(command)
    requires !Stopped(WaitIf(Waits(command), s, b))
    requires !Refused(WaitIf(Waits(command), s, b).view.contexts, command)
    ensures var waited := WaitIf(Waits(command), s, b).view;
            && waited.contexts.top.Some?
            && IsPrompted(waited, prompted, waited.contexts.top.value, behavior, b)
            && Execute(s, command, behavior, b).Done?
            && if prompted.error.Some? then Execute(s, command, behavior, b) == prompted
               else prompted.view.sent <= Execute(s, command, behavior, b).view.sent
  {
    hide HandleUserPrompts, Perform, IsPrompted, WaitForNavigationToComplete;
    WaitingIsSafe(s, b);
    var waited := WaitIf(Waits(command), s, b).view;
    prompted := HandleUserPrompts(waited, behavior, b);
    PromptsAreHandled(waited, behavior, b);
    PromptsKeepContexts(waited, behavior, b);
    if !Stopped(prompted) {
      PerformExtends(prompted.view, command, behavior, b);
    }
  }

  // ----- Waiting and guards

  /** Waiting asks once, and takes note of what is gone. */
  lemma {:induction false} WaitingMeans(s: View, b: Backend)
    requires Coherent(s.contexts)
    ensures s.contexts.current == None ==> WaitForNavigationToComplete(s, b) == Done(s, None)
    ensures s.contexts.current.Some? ==>
              var asked := s.sent + [Request(WaitForNavigation, s.contexts.top.value, s.contexts.current)];
              var reply := b.reply(asked);
              WaitForNavigationToComplete(s, b)
              == if reply == Failed(NoSuchWindow) then Done(View(Contexts(None, None, None), asked), None)
                 else if reply == Failed(NoSuchFrame) then
                   Done(View(Contexts(s.contexts.top, None, s.contexts.parent), asked), None)
                 else Done(View(s.contexts, asked), if reply.Failed? then Some(reply.error) else None)
  {
  }

  /** With the window there but its frame gone, what needs the frame is refused, and nothing
      else. */
  lemma {:induction false} LostFrame(s: View, command: Command, behavior: PromptBehavior, b: Backend)
    requires Coherent(s.contexts) && s.contexts.top.Some? && s.contexts.current == None
    ensures Execute(s, command, behavior, b) == Done(s, Some(NoSuchWindow))
       <==> command.SwitchToFrame? || command.ElementClick? || (command.Query? && command.needsFrame)
  {
    SilentIffRefused(s, command, behavior, b);
  }

  /** With both there, nothing is. */
  lemma {:induction false} NothingLost(s: View, command: Command, behavior: PromptBehavior, b: Backend)
    requires Coherent(s.contexts) && s.contexts.current.Some?
    ensures Execute(s, command, behavior, b) != Done(s, Some(NoSuchWindow))
  {
    SilentIffRefused(s, command, behavior, b);
  }

  // ----- When all goes well

  /** A backend without prompts that answers everything: `child` for the child frame, and
      `parent` for the parent. */
  function Cooperative(child: string, parent: string): Backend {
    Backend((h: seq<Request>) =>
              if h != [] && h[|h| - 1].message == ResolveChildFrame then Answer(Some(child), Some(false))
              else Answer(Some(parent), Some(false)),
            h => true)
  }

  /** All that a command asks for then, in order. */
  function Requests(window: string, frame: string, up: string, child: string, command: Command): seq<Request> {
    var wait := Request(WaitForNavigation, window, Some(frame));
    var look := Request(IsShowingDialog, window, None);
    var ask := Request(Ask, window, Some(frame));
    match command
    case GoSomewhere => [wait, look, Request(Navigate, window, None)]
    case CloseWindow => [look, Request(CloseContext, window, None), Request(ListContexts, "", None)]
    case SwitchToWindow(handle) => [Request(SwitchContext, handle, Some(""))]
    case SwitchToTopFrame => [wait]
    case SwitchToFrame =>
      [wait, look, Request(ResolveChildFrame, window, Some(frame)), Request(SwitchContext, window, Some(child))]
      + AskForParent(window, child)
    case SwitchToParentFrame =>
      [wait, look, Request(SwitchContext, window, Some(up))] + AskForParent(window, up)
    case ElementClick => [look, ask, ask, look, ask, ask, wait]
    case Query(waits, _, prompts, messages) =>
      (if waits then [wait] else []) + (if prompts then [look] else []) + seq(messages, _ => ask)
    case GetWindowHandles => [Request(ListContexts, "", None)]
    case Timeouts => []
  }

  /** The top frame is known to be its own parent. */
  function AskForParent(window: string, frame: string): seq<Request> {
    if frame == "" then [] else [Request(ResolveParentFrame, window, Some(frame))]
  }

  /** Where it leaves the session. */
  function ContextsAfter(window: string, frame: string, up: string, child: string, parent: string, command: Command): Contexts {
    match command
    case GoSomewhere => Contexts(Some(window), Some(""), Some(""))
    case CloseWindow => Contexts(None, None, None)
    case SwitchToWindow(handle) => Contexts(Some(handle), Some(""), Some(""))
    case SwitchToTopFrame => Contexts(Some(window), Some(""), Some(""))
    case SwitchToFrame => Contexts(Some(window), Some(child), Some(if child == "" then "" else parent))
    case SwitchToParentFrame => Contexts(Some(window), Some(up), Some(if up == "" then "" else parent))
    case _ => Contexts(Some(window), Some(frame), Some(up))
  }

  /** A command that nothing is in the way of asks for exactly that, and succeeds. */
  lemma {:induction false} CommandSucceeds(s: View, window: string, frame: string, up: string, child: string, parent: string,
                                           command: Command, behavior: PromptBehavior)
    requires s.contexts == Contexts(Some(window), Some(frame), Some(up))
    ensures Execute(s, command, behavior, Cooperative(child, parent))
         == Done(View(ContextsAfter(window, frame, up, child, parent, command),
                      s.sent + Requests(window, frame, up, child, command)), None)
  {
    hide Perform, HandleUserPrompts, WaitForNavigationToComplete, Requests, RestOf, ContextsAfter, Cooperative,
         Waits, Prompts;
    var wait := if Waits(command) then [Request(WaitForNavigation, window, Some(frame))] else [];
    var look := if Prompts(command) then [Request(IsShowingDialog, window, None)] else [];
    var waited := s.(sent := s.sent + wait);
    var looked := waited.(sent := waited.sent + look);
    StepsSucceed(s, window, child, parent, behavior);
    StepsSucceed(waited, window, child, parent, behavior);
    NothingAdded(s.sent);
    NothingAdded(waited.sent);
    NotRefused(s.contexts, command);
    PerformSucceeds(looked, window, frame, up, child, parent, command, behavior);
    RestIsRest(window, frame, up, child, command);
    Regroup(s.sent, wait, look, RestOf(window, frame, up, child, command));
  }

  lemma {:induction false} NothingAdded(sent: seq<Request>)
    ensures sent + [] == sent
  {
  }

  lemma {:induction false} NotRefused(c: Contexts, command: Command)
    requires c.top.Some? && c.current.Some? && c.parent.Some?
    ensures !Refused(c, command)
  {
  }

  lemma {:induction false} Regroup(a: seq<Request>, b: seq<Request>, c: seq<Request>, d: seq<Request>)
    ensures a + b + c + d == a + (b + c + d)
  {
  }

  /** One wait, or one look for prompts. */
  lemma {:induction false} StepsSucceed(s: View, window: string, child: string, parent: string, behavior: PromptBehavior)
    requires s.contexts.top == Some(window) && s.contexts.current.Some?
    ensures WaitForNavigationToComplete(s, Cooperative(child, parent))
         == Done(s.(sent := s.sent + [Request(WaitForNavigation, window, s.contexts.current)]), None)
    ensures HandleUserPrompts(s, behavior, Cooperative(child, parent))
         == Done(s.(sent := s.sent + [Request(IsShowingDialog, window, None)]), None)
  {
  }

  /** What is left to ask for after the wait and the look for prompts. */
  function RestOf(window: string, frame: string, up: string, child: string, command: Command): seq<Request> {
    var ask := Request(Ask, window, Some(frame));
    match command
    case GoSomewhere => [Request(Navigate, window, None)]
    case CloseWindow => [Request(CloseContext, window, None), Request(ListContexts, "", None)]
    case SwitchToWindow(handle) => [Request(SwitchContext, handle, Some(""))]
    case SwitchToTopFrame => []
    case SwitchToFrame =>
      [Request(ResolveChildFrame, window, Some(frame))]
      + ([Request(SwitchContext, window, Some(child))] + AskForParent(window, child))
    case SwitchToParentFrame => [Request(SwitchContext, window, Some(up))] + AskForParent(window, up)
    case ElementClick =>
      [ask, ask, Request(IsShowingDialog, window, None), ask, ask, Request(WaitForNavigation, window, Some(frame))]
    case Query(_, _, _, messages) => seq(messages, _ => ask)
    case GetWindowHandles => [Request(ListContexts, "", None)]
    case Timeouts => []
  }

  lemma {:induction false} RestIsRest(window: string, frame: string, up: string, child: string, command: Command)
    ensures Requests(window, frame, up, child, command)
         == (if Waits(command) then [Request(WaitForNavigation, window, Some(frame))] else [])
            + (if Prompts(command) then [Request(IsShowingDialog, window, None)] else [])
            + RestOf(window, frame, up, child, command)
  {
  }

  lemma {:induction false} AskingSucceeds(s: View, window: string, frame: string, messages: nat, child: string, parent: string)
    requires s.contexts.top == Some(window) && s.contexts.current == Some(frame)
    ensures AskAll(s, messages, Cooperative(child, parent))
         == Done(s.(sent := s.sent + seq(messages, _ => Request(Ask, window, Some(frame)))), None)
    decreases messages
  {
    var ask := Request(Ask, window, Some(frame));
    if messages == 0 {
      assert s.sent + seq(0, _ => ask) == s.sent;
    } else {
      AskingSucceeds(Tell(s, Ask, window, Some(frame)), window, frame, messages - 1, child, parent);
      OneAskMore(s.sent, ask, messages);
    }
  }

  lemma {:induction false} OneAskMore(sent: seq<Request>, ask: Request, messages: nat)
    requires messages > 0
    ensures sent + [ask] + seq(messages - 1, _ => ask) == sent + seq(messages, _ => ask)
  {
  }

  lemma {:induction false} MovingSucceeds(s: View, window: string, frame: string, child: string, parent: string)
    requires s.contexts.top == Some(window)
    ensures MoveTo(s, frame, Cooperative(child, parent))
         == Done(View(Contexts(Some(window), Some(frame), Some(if frame == "" then "" else parent)),
                      s.sent + ([Request(SwitchContext, window, Some(frame))] + AskForParent(window, frame))), None)
  {
    var told := s.sent + [Request(SwitchContext, window, Some(frame))];
    assert told + AskForParent(window, frame)
        == s.sent + ([Request(SwitchContext, window, Some(frame))] + AskForParent(window, frame));
  }

  lemma {:induction false} ClickSucceeds(s: View, window: string, frame: string, child: string, parent: string,
                                         behavior: PromptBehavior)
    requires s.contexts.top == Some(window) && s.contexts.current == Some(frame)
    ensures var ask, look := Request(Ask, window, Some(frame)), Request(IsShowingDialog, window, None);
            Click(s, behavior, Cooperative(child, parent))
            == Done(s.(sent := s.sent + [ask, ask, look, ask, ask, Request(WaitForNavigation, window, Some(frame))]), None)
  {
    hide AskAll, HandleUserPrompts, WaitForNavigationToComplete, Cooperative;
    var ask, look := Request(Ask, window, Some(frame)), Request(IsShowingDialog, window, None);
    var wait := Request(WaitForNavigation, window, Some(frame));
    OneOrTwo(ask);
    AskingSucceeds(s, window, frame, 2, child, parent);
    var located := s.(sent := s.sent + [ask, ask]);
    StepsSucceed(located, window, child, parent, behavior);
    var looked := located.(sent := located.sent + [look]);
    AskingSucceeds(looked, window, frame, 1, child, parent);
    var named := looked.(sent := looked.sent + [ask]);
    AskingSucceeds(named, window, frame, 1, child, parent);
    var clicked := named.(sent := named.sent + [ask]);
    StepsSucceed(clicked, window, child, parent, behavior);
    AllClickRequests(s.sent, ask, look, wait);
  }

  lemma {:induction false} OneOrTwo(ask: Request)
    ensures seq(1, _ => ask) == [ask] && seq(2, _ => ask) == [ask, ask]
  {
  }

  lemma {:induction false} AllClickRequests(sent: seq<Request>, ask: Request, look: Request, wait: Request)
    ensures sent + [ask, ask] + [look] + [ask] + [ask] + [wait] == sent + [ask, ask, look, ask, ask, wait]
  {
  }

  lemma {:induction false} PerformSucceeds(s: View, window: string, frame: string, up: string, child: string, parent: string,
                                           command: Command, behavior: PromptBehavior)
    requires s.contexts == Contexts(Some(window), Some(frame), Some(up))
    ensures Perform(s, command, behavior, Cooperative(child, parent))
         == Done(View(ContextsAfter(window, frame, up, child, parent, command),
                      s.sent + RestOf(window, frame, up, child, command)), None)
  {
    hide AskAll, MoveTo, Click, AskForParent;
    match command
    case Query(waits, _, prompts, messages) => AskingSucceeds(s, window, frame, messages, child, parent);
    case ElementClick => ClickSucceeds(s, window, frame, child, parent, behavior);
    case SwitchToFrame => EnteringSucceeds(s, window, frame, up, child, parent, behavior);
    case SwitchToParentFrame => MovingSucceeds(s, window, up, child, parent);
    case CloseWindow => ClosingSucceeds(s, window, frame, up, child, parent, behavior);
    case _ => NothingAdded(s.sent);
  }

  lemma {:induction false} ClosingSucceeds(s: View, window: string, frame: string, up: string, child: string, parent: string,
                                           behavior: PromptBehavior)
    requires s.contexts == Contexts(Some(window), Some(frame), Some(up))
    ensures Perform(s, CloseWindow, behavior, Cooperative(child, parent))
         == Done(View(Contexts(None, None, None), s.sent + RestOf(window, frame, up, child, CloseWindow)), None)
  {
    assert s.sent + [Request(CloseContext, window, None)] + [Request(ListContexts, "", None)]
        == s.sent + RestOf(window, frame, up, child, CloseWindow);
  }

  lemma {:induction false} EnteringSucceeds(s: View, window: string, frame: string, up: string, child: string, parent: string,
                                            behavior: PromptBehavior)
    requires s.contexts == Contexts(Some(window), Some(frame), Some(up))
    ensures Perform(s, SwitchToFrame, behavior, Cooperative(child, parent))
         == Done(View(Contexts(Some(window), Some(child), Some(if child == "" then "" else parent)),
                      s.sent + RestOf(window, frame, up, child, SwitchToFrame)), None)
  {
    hide MoveTo, AskForParent;
    var told := Tell(s, ResolveChildFrame, window, Some(frame));
    MovingSucceeds(told, window, child, child, parent);
    var moved := [Request(SwitchContext, window, Some(child))] + AskForParent(window, child);
    assert told.sent + moved == s.sent + ([Request(ResolveChildFrame, window, Some(frame))] + moved);
  }

  // ----- When a move fails

  predicate IsMove(message: Message) {
    message.Navigate? || message.SwitchContext? || message.ResolveChildFrame?
  }

  predicate EndsInFailedMove(was: seq<Request>, sent: seq<Request>, b: Backend) {
    |sent| > |was| && IsMove(sent[|sent| - 1].message) && b.reply(sent).Failed?
  }

  function MoveError(command: Command, e: Error): Error {
    if command.SwitchToParentFrame? && e == NoSuchFrame then NoSuchWindow else e
  }

  /** If the last thing asked for is a move and it fails, that is what is reported, but for a
      parent frame that is gone; and the session stays where it was. */
  lemma {:induction false} FailedMoveStays(s: View, command: Command, behavior: PromptBehavior, b: Backend)
    requires Coherent(s.contexts)
    ensures var o := Execute(s, command, behavior, b);
            && o.Done? && WaitIf(Waits(command), s, b).Done?
            && (EndsInFailedMove(s.sent, o.view.sent, b) ==>
                  && o.view.contexts == WaitIf(Waits(command), s, b).view.contexts
                  && o.error == Some(MoveError(command, b.reply(o.view.sent).error)))
  {
    hide Perform, Admit, WaitForNavigationToComplete, Refused, Waits, EndsInNoMove, EndsInFailedMove, MoveError;
    WaitingIsSafe(s, b);
    WaitingIsNoMove(s, b);
    var waited := WaitIf(Waits(command), s, b);
    EndsHere(s.sent, s.sent, b);
    EndsHere(s.sent, waited.view.sent, b);
    if !Stopped(waited) {
      AdmittingIsNoMove(waited.view, command, behavior, b);
      var admitted := Admit(waited.view, command, behavior, b);
      EndsLater(s.sent, waited.view.sent, admitted.view.sent, b);
      EndsHere(waited.view.sent, admitted.view.sent, b);
      if !Stopped(admitted) {
        FailedPerformStays(admitted.view, command, behavior, b);
        var sent := Perform(admitted.view, command, behavior, b).view.sent;
        EndsLater(s.sent, waited.view.sent, sent, b);
        EndsLater(waited.view.sent, admitted.view.sent, sent, b);
      }
    }
  }

  ghost predicate EndsInNoMove(was: seq<Request>, sent: seq<Request>) {
    was <= sent && (sent == was || !IsMove(sent[|sent| - 1].message))
  }

  lemma {:induction false} EndsHere(was: seq<Request>, sent: seq<Request>, b: Backend)
    ensures EndsInNoMove(was, was)
    ensures EndsInNoMove(was, sent) ==> was <= sent && !EndsInFailedMove(was, sent, b)
  {
  }

  lemma {:induction false} EndsLater(was: seq<Request>, middle: seq<Request>, sent: seq<Request>, b: Backend)
    requires EndsInNoMove(was, middle) && middle <= sent
    ensures EndsInFailedMove(was, sent, b) ==> EndsInFailedMove(middle, sent, b)
  {
  }

  lemma {:induction false} WaitingIsNoMove(s: View, b: Backend)
    requires Coherent(s.contexts)
    ensures var o := WaitForNavigationToComplete(s, b);
            o.Done? && EndsInNoMove(s.sent, o.view.sent)
  {
  }

  lemma {:induction false} AdmittingIsNoMove(s: View, command: Command, behavior: PromptBehavior, b: Backend)
    requires Coherent(s.contexts)
    ensures var o := Admit(s, command, behavior, b);
            && o.Done? && o.view.contexts == s.contexts && (!Stopped(o) ==> !Refused(s.contexts, command))
            && s.sent <= o.view.sent && EndsInNoMove(s.sent, o.view.sent)
  {
    hide HandleUserPrompts, Reaction;
    if Prompts(command) && !Refused(s.contexts, command) {
      PromptsAreHandled(s, behavior, b);
      ReactionIsNoMove(behavior, s.contexts.top.value);
    }
  }

  lemma {:induction false} ReactionIsNoMove(behavior: PromptBehavior, window: string)
    ensures forall k | 0 <= k < |Reaction(behavior, window)| :: !IsMove(Reaction(behavior, window)[k].message)
  {
  }

  lemma {:induction false} FailedPerformStays(s: View, command: Command, behavior: PromptBehavior, b: Backend)
    requires Coherent(s.contexts) && !Refused(s.contexts, command)
    ensures var o := Perform(s, command, behavior, b);
            && o.Done? && s.sent <= o.view.sent
            && (EndsInFailedMove(s.sent, o.view.sent, b) ==>
                  o.view.contexts == s.contexts && o.error == Some(MoveError(command, b.reply(o.view.sent).error)))
  {
    hide Click, AskAll;
    PerformExtends(s, command, behavior, b);
    match command
    case Query(_, _, _, messages) => QuestionsAreNoMoves(s, messages, b);
    case ElementClick => ClicksAreNoMoves(s, behavior, b);
    case _ =>
  }

  lemma {:induction false} QuestionsAreNoMoves(s: View, messages: nat, b: Backend)
    requires s.contexts.top.Some?
    ensures AskAll(s, messages, b).Done? && s.sent <= AskAll(s, messages, b).view.sent
    ensures !EndsInFailedMove(s.sent, AskAll(s, messages, b).view.sent, b)
    decreases messages
  {
    if messages > 0 {
      var told := Tell(s, Ask, s.contexts.top.value, s.contexts.current);
      QuestionsAreNoMoves(told, messages - 1, b);
      AskingOnlyAsks(told, messages - 1, b);
    }
  }

  lemma {:induction false} ClicksAreNoMoves(s: View, behavior: PromptBehavior, b: Backend)
    requires Coherent(s.contexts) && s.contexts.top.Some?
    ensures Click(s, behavior, b).Done? && !EndsInFailedMove(s.sent, Click(s, behavior, b).view.sent, b)
  {
    hide HandleUserPrompts, AskAll, Reaction;
    AskingExtends(s, 2, b);
    QuestionsAreNoMoves(s, 2, b);
    var located := AskAll(s, 2, b).view;
    PromptsAreHandled(located, behavior, b);
    ReactionIsNoMove(behavior, s.contexts.top.value);
    AskingExtends(HandleUserPrompts(located, behavior, b).view, 1, b);
    var named := TagName(located, behavior, b).view;
    AskingExtends(named, 1, b);
    AskingOnlyAsks(named, 1, b);
    QuestionsAreNoMoves(named, 1, b);
  }
}
