/** The browsing contexts of a WebDriver session: its window, the current frame and that
    frame's parent. Each may be gone, and reading one that is gone is a crash. A frame
    handle "" is the window's top frame. */
module WebDriverContexts {
  import opened Wrappers

  datatype Contexts = Contexts(top: Option<string>, current: Option<string>, parent: Option<string>)

  datatype Error = NoSuchWindow | NoSuchFrame | UnexpectedAlertOpen | UnknownError | InvalidArgument | OtherError(code: nat)

  datatype Message =
    | CreateContext | IsShowingDialog | DismissDialog | AcceptDialog | DialogText | Navigate
    | WaitForNavigation | ResolveChildFrame | ResolveParentFrame | SwitchContext | CloseContext | ListContexts
    | Ask

  datatype Request = Request(message: Message, window: string, frame: Option<string>)

  /** An error, an answer without an object, or an object with the member asked for, if present. */
  datatype Reply = Failed(error: Error) | Empty | Answer(text: Option<string>, flag: Option<bool>)

  /** The backend may answer anything, and the browser may be gone at any time, depending
      on all that was asked so far. */
  datatype Backend = Backend(reply: seq<Request> -> Reply, connected: seq<Request> -> bool)

  datatype PromptBehavior = Dismiss | Accept | DismissAndNotify | AcceptAndNotify | Ignore

  /** The fields of a session, and all it has sent. */
  datatype View = View(contexts: Contexts, sent: seq<Request>)

  datatype Outcome = Crash | Done(view: View, error: Option<Error>)

  /** Commands whose own arguments have been accepted. `Query` is any command that asks the
      backend up to `messages` questions about the window and changes no context; it may
      need a current frame, or only a window. `Timeouts` reads or sets the timeouts. */
  datatype Command =
    | GoSomewhere
    | CloseWindow
    | SwitchToWindow(handle: string)
    | SwitchToTopFrame
    | SwitchToFrame
    | SwitchToParentFrame
    | ElementClick
    | Query(waits: bool, needsFrame: bool, prompts: bool, messages: nat)
    | GetWindowHandles
    | Timeouts

  // ----- The steps commands are made of

  function Tell(s: View, message: Message, window: string, frame: Option<string>): View {
    s.(sent := s.sent + [Request(message, window, frame)])
  }

  /** What a reply that must come with an object is reported as. */
  function ErrorOf(r: Reply): Option<Error> {
    match r
    case Failed(e) => Some(e)
    case Empty => Some(UnknownError)
    case Answer(_, _) => None
  }

  /** What a reply that may come without an object is reported as. */
  function FailureOf(r: Reply): Option<Error> {
    if r.Failed? then Some(r.error) else None
  }

  function Alert(s: View, message: Message, b: Backend): Outcome {
    match s.contexts.top
    case None => Done(s, Some(NoSuchWindow))
    case Some(window) =>
      var told := Tell(s, message, window, None);
      Done(told, FailureOf(b.reply(told.sent)))
  }

  /** The text is read only to be put in the error. */
  function ReportUnexpectedAlert(s: View): View {
    if s.contexts.top.Some? then Tell(s, DialogText, s.contexts.top.value, None) else s
  }

  function HandleUnexpectedAlert(s: View, behavior: PromptBehavior, b: Backend): Outcome {
    match behavior
    case Dismiss => Alert(s, DismissDialog, b)
    case Accept => Alert(s, AcceptDialog, b)
    case DismissAndNotify =>
      var done := Alert(ReportUnexpectedAlert(s), DismissDialog, b);
      if done.Done? && done.error == None then done.(error := Some(UnexpectedAlertOpen)) else done
    case AcceptAndNotify =>
      var done := Alert(ReportUnexpectedAlert(s), AcceptDialog, b);
      if done.Done? && done.error == None then done.(error := Some(UnexpectedAlertOpen)) else done
    case Ignore => Done(ReportUnexpectedAlert(s), Some(UnexpectedAlertOpen))
  }

  function HandleUserPrompts(s: View, behavior: PromptBehavior, b: Backend): Outcome {
    match s.contexts.top
    case None => Crash
    case Some(window) =>
      var told := Tell(s, IsShowingDialog, window, None);
      var reply := b.reply(told.sent);
      if ErrorOf(reply) != None then Done(told, ErrorOf(reply))
      else if reply.flag == None then Done(told, Some(UnknownError))
      else if !reply.flag.value then Done(told, None)
      else HandleUnexpectedAlert(told, behavior, b)
  }

  function WaitForNavigationToComplete(s: View, b: Backend): Outcome {
    if s.contexts.current == None then Done(s, None)
    else match s.contexts.top
      case None => Crash
      case Some(window) =>
        var told := Tell(s, WaitForNavigation, window, s.contexts.current);
        match b.reply(told.sent)
        case Failed(NoSuchWindow) => Done(told.(contexts := Contexts(None, None, None)), None)
        case Failed(NoSuchFrame) => Done(told.(contexts := told.contexts.(current := None)), None)
        case Failed(e) => Done(told, Some(e))
        case _ => Done(told, None)
  }

  function TopLevel(window: string): Contexts { Contexts(Some(window), Some(""), Some("")) }

  /** Makes a frame current, and asks for its parent. A failure to learn the parent is not
      reported, and leaves the parent as it was. */
  function MakeCurrent(s: View, frame: string, b: Backend): Outcome {
    var moved := s.contexts.(current := Some(frame));
    if frame == "" then Done(s.(contexts := moved.(parent := Some(""))), None)
    else match moved.top
      case None => Crash
      case Some(window) =>
        var told := Tell(s.(contexts := moved), ResolveParentFrame, window, Some(frame));
        match b.reply(told.sent)
        case Answer(text, _) =>
          Done(told.(contexts := moved.(parent := Some(if text.Some? then text.value else ""))), None)
        case _ => Done(told, None)
  }

  /** Asks the backend to switch first, and then makes the frame current. */
  function MoveTo(s: View, frame: string, b: Backend): Outcome {
    match s.contexts.top
    case None => Crash
    case Some(window) =>
      var told := Tell(s, SwitchContext, window, Some(frame));
      if b.reply(told.sent).Failed? then Done(told, FailureOf(b.reply(told.sent))) else MakeCurrent(told, frame, b)
  }

  /** Up to `messages` questions about the current window, until one fails. */
  function AskAll(s: View, messages: nat, b: Backend): Outcome
    decreases messages
  {
    if messages == 0 then Done(s, None)
    else match s.contexts.top
      case None => Crash
      case Some(window) =>
        var told := Tell(s, Ask, window, s.contexts.current);
        if ErrorOf(b.reply(told.sent)) != None then Done(told, ErrorOf(b.reply(told.sent)))
        else AskAll(told, messages - 1, b)
  }

  function ListWindows(s: View, b: Backend): (o: Outcome)
    ensures o.Done? && o.view.contexts == s.contexts
  {
    var told := Tell(s, ListContexts, "", None);
    Done(told, ErrorOf(b.reply(told.sent)))
  }

  // ----- Commands

  predicate Stopped(o: Outcome) { o.Crash? || o.error.Some? }

  /** Whether the service waits for navigation before it passes the command on. */
  predicate Waits(command: Command) {
    match command
    case Query(waits, _, _, _) => waits
    case CloseWindow => false
    case SwitchToWindow(_) => false
    case ElementClick => false
    case GetWindowHandles => false
    case Timeouts => false
    case _ => true
  }

  /** The commands that make sense without a window. */
  predicate NeedsNoWindow(command: Command) {
    command.SwitchToWindow? || command.GetWindowHandles? || command.Timeouts?
  }

  /** Whether what the command needs first is gone, which it reports as no such window. */
  predicate Refused(c: Contexts, command: Command) {
    match command
    case GoSomewhere => c.top == None
    case CloseWindow => c.top == None
    case SwitchToWindow(_) => false
    case SwitchToTopFrame => c.top == None
    case SwitchToFrame => c.current == None
    case SwitchToParentFrame => c.parent == None
    case ElementClick => c.current == None
    case Query(_, needsFrame, _, _) => if needsFrame then c.current == None else c.top == None
    case GetWindowHandles => false
    case Timeouts => false
  }

  predicate Prompts(command: Command) {
    match command
    case SwitchToWindow(_) => false
    case SwitchToTopFrame => false
    case Query(_, _, prompts, _) => prompts
    case GetWindowHandles => false
    case Timeouts => false
    case _ => true
  }

  /** The tag name is asked for as a command of its own, whose failure is ignored. */
  function TagName(s: View, behavior: PromptBehavior, b: Backend): Outcome {
    if s.contexts.current == None then Done(s, None)
    else
      var prompted := HandleUserPrompts(s, behavior, b);
      if Stopped(prompted) then prompted else AskAll(prompted.view, 1, b)
  }

  function Click(s: View, behavior: PromptBehavior, b: Backend): Outcome {
    var located := AskAll(s, 2, b);
    if Stopped(located) then located
    else
      var named := TagName(located.view, behavior, b);
      if named.Crash? then Crash
      else
        var clicked := AskAll(named.view, 1, b);
        if Stopped(clicked) then clicked else WaitForNavigationToComplete(clicked.view, b)
  }

  /** What is left of a command once it has passed its guard and dealt with prompts. */
  function Perform(s: View, command: Command, behavior: PromptBehavior, b: Backend): Outcome {
    match command
    case GoSomewhere =>
      (match s.contexts.top
       case None => Crash
       case Some(window) =>
         var told := Tell(s, Navigate, window, None);
         if b.reply(told.sent).Failed? then Done(told, FailureOf(b.reply(told.sent))) else MakeCurrent(told, "", b))
    case CloseWindow =>
      (match s.contexts.top
       case None => Crash
       case Some(window) =>
         var told := Tell(s.(contexts := Contexts(None, None, None)), CloseContext, window, None);
         if !b.connected(told.sent) then Done(told, None)
         else if b.reply(told.sent).Failed? then Done(told, FailureOf(b.reply(told.sent)))
         else
           var listed := ListWindows(told, b);
           if b.connected(listed.view.sent) then listed else listed.(error := None))
    case SwitchToWindow(handle) =>
      var told := Tell(s, SwitchContext, handle, Some(""));
      if b.reply(told.sent).Failed? then Done(told, FailureOf(b.reply(told.sent)))
      else Done(told.(contexts := TopLevel(handle)), None)
    case SwitchToTopFrame => MakeCurrent(s, "", b)
    case SwitchToFrame =>
      (match s.contexts.top
       case None => Crash
       case Some(window) =>
         var told := Tell(s, ResolveChildFrame, window, s.contexts.current);
         var reply := b.reply(told.sent);
         if ErrorOf(reply) != None then Done(told, ErrorOf(reply))
         else if reply.text == None then Done(told, Some(UnknownError))
         else MoveTo(told, reply.text.value, b))
    case SwitchToParentFrame =>
      if s.contexts.parent == None then Crash
      else
        var moved := MoveTo(s, s.contexts.parent.value, b);
        if moved.Done? && moved.error == Some(NoSuchFrame) then moved.(error := Some(NoSuchWindow)) else moved
    case ElementClick => Click(s, behavior, b)
    case Query(_, _, _, messages) => AskAll(s, messages, b)
    case GetWindowHandles => ListWindows(s, b)
    case Timeouts => Done(s, None)
  }

  /** A command's guard, and the prompts that are in its way. */
  function Admit(s: View, command: Command, behavior: PromptBehavior, b: Backend): Outcome {
    if Refused(s.contexts, command) then Done(s, Some(NoSuchWindow))
    else if Prompts(command) then HandleUserPrompts(s, behavior, b)
    else Done(s, None)
  }

  /** A command as the session takes it. */
  function Handle(s: View, command: Command, behavior: PromptBehavior, b: Backend): Outcome {
    var admitted := Admit(s, command, behavior, b);
    if Stopped(admitted) then admitted else Perform(admitted.view, command, behavior, b)
  }

  function WaitIf(waits: bool, s: View, b: Backend): Outcome {
    if waits then WaitForNavigationToComplete(s, b) else Done(s, None)
  }

  /** A command as the service passes it on. */
  function Execute(s: View, command: Command, behavior: PromptBehavior, b: Backend): Outcome {
    var waited := WaitIf(Waits(command), s, b);
    if Stopped(waited) then waited else Handle(waited.view, command, behavior, b)
  }

  /** A new session opens a window first. */
  function Open(b: Backend): Outcome {
    var told := Tell(View(Contexts(None, None, None), []), CreateContext, "", None);
    var reply := b.reply(told.sent);
    if ErrorOf(reply) != None then Done(told, ErrorOf(reply))
    else if reply.text == None then Done(told, Some(UnknownError))
    else Done(told.(contexts := TopLevel(reply.text.value)), None)
  }

  /** One command after the other, each whatever became of the one before. */
  function Run(s: View, commands: seq<Command>, behavior: PromptBehavior, b: Backend): Outcome {
    if commands == [] then Done(s, None)
    else
      var last := |commands| - 1;
      var before := Run(s, commands[..last], behavior, b);
      if before.Crash? then Crash else Execute(before.view, commands[last], behavior, b)
  }

  // ----- Nothing that is gone is read

  /** The window is there if a frame is, and exactly when a parent is. */
  predicate Coherent(c: Contexts) {
    && (c.current.Some? ==> c.top.Some?)
    && (c.parent.Some? <==> c.top.Some?)
  }

  lemma {:induction false} PromptsKeepContexts(s: View, behavior: PromptBehavior, b: Backend)
    requires s.contexts.top.Some?
    ensures HandleUserPrompts(s, behavior, b).Done?
    ensures HandleUserPrompts(s, behavior, b).view.contexts == s.contexts
  {
  }

  lemma {:induction false} AskingKeepsContexts(s: View, messages: nat, b: Backend)
    requires s.contexts.top.Some?
    ensures AskAll(s, messages, b).Done? && AskAll(s, messages, b).view.contexts == s.contexts
    decreases messages
  {
    if messages > 0 {
      AskingKeepsContexts(Tell(s, Ask, s.contexts.top.value, s.contexts.current), messages - 1, b);
    }
  }

  /** Waiting keeps contexts coherent. It may find the window or the frame gone. */
  lemma {:induction false} WaitingIsSafe(s: View, b: Backend)
    requires Coherent(s.contexts)
    ensures WaitForNavigationToComplete(s, b).Done?
    ensures WaitForNavigationToComplete(s, b).view.contexts
         in [s.contexts, s.contexts.(current := None), Contexts(None, None, None)]
  {
  }

  lemma {:induction false} ClickIsSafe(s: View, behavior: PromptBehavior, b: Backend)
    requires Coherent(s.contexts) && s.contexts.top.Some?
    ensures Click(s, behavior, b).Done?
    ensures Click(s, behavior, b).view.contexts in [s.contexts, s.contexts.(current := None), Contexts(None, None, None)]
  {
    hide HandleUserPrompts, WaitForNavigationToComplete, AskAll;
    AskingKeepsContexts(s, 2, b);
    var located := AskAll(s, 2, b).view;
    PromptsKeepContexts(located, behavior, b);
    AskingKeepsContexts(HandleUserPrompts(located, behavior, b).view, 1, b);
    var named := TagName(located, behavior, b).view;
    AskingKeepsContexts(named, 1, b);
    WaitingIsSafe(AskAll(named, 1, b).view, b);
  }

  lemma {:induction false} AdmittedKeepsContexts(s: View, command: Command, behavior: PromptBehavior, b: Backend)
    requires Coherent(s.contexts)
    ensures Admit(s, command, behavior, b).Done?
    ensures Admit(s, command, behavior, b).view.contexts == s.contexts
  {
    hide HandleUserPrompts;
    if Prompts(command) && !Refused(s.contexts, command) {
      PromptsKeepContexts(s, behavior, b);
    }
  }

  lemma {:induction false} PerformIsSafe(s: View, command: Command, behavior: PromptBehavior, b: Backend)
    requires Coherent(s.contexts) && !Refused(s.contexts, command)
    ensures Perform(s, command, behavior, b).Done?
    ensures Coherent(Perform(s, command, behavior, b).view.contexts)
  {
    hide Click, AskAll;
    match command
    case Query(_, _, _, messages) => AskingKeepsContexts(s, messages, b);
    case ElementClick => ClickIsSafe(s, behavior, b);
    case _ =>
  }

  /** From coherent contexts no command reads one that is gone, whatever the backend
      answers, and it leaves them coherent. */
  lemma {:induction false} CommandIsSafe(s: View, command: Command, behavior: PromptBehavior, b: Backend)
    requires Coherent(s.contexts)
    ensures Execute(s, command, behavior, b).Done?
    ensures Coherent(Execute(s, command, behavior, b).view.contexts)
  {
    hide WaitForNavigationToComplete, HandleUserPrompts, Perform;
    WaitingIsSafe(s, b);
    var waited := WaitIf(Waits(command), s, b);
    if !Stopped(waited) {
      AdmittedKeepsContexts(waited.view, command, behavior, b);
      var admitted := Admit(waited.view, command, behavior, b);
      if !Stopped(admitted) {
        PerformIsSafe(admitted.view, command, behavior, b);
      }
    }
  }

  /** Everything sent stays sent. */
  lemma {:induction false} AskingOnlyAsks(s: View, messages: nat, b: Backend)
    requires s.contexts.top.Some?
    ensures AskAll(s, messages, b).Done? && s.sent <= AskAll(s, messages, b).view.sent
    ensures messages > 0 ==> |AskAll(s, messages, b).view.sent| > |s.sent|
    ensures messages == 0 ==> AskAll(s, messages, b) == Done(s, None)
    decreases messages
  {
    if messages > 0 {
      AskingOnlyAsks(Tell(s, Ask, s.contexts.top.value, s.contexts.current), messages - 1, b);
    }
  }

  lemma {:induction false} PromptsAsk(s: View, behavior: PromptBehavior, b: Backend)
    requires s.contexts.top.Some?
    ensures HandleUserPrompts(s, behavior, b).Done? && |HandleUserPrompts(s, behavior, b).view.sent| > |s.sent|
  {
  }

  lemma {:induction false} AdmittedAsks(s: View, command: Command, behavior: PromptBehavior, b: Backend)
    requires Coherent(s.contexts)
    ensures Admit(s, command, behavior, b).Done?
    ensures if Refused(s.contexts, command) || !Prompts(command) then Admit(s, command, behavior, b).view == s
            else |Admit(s, command, behavior, b).view.sent| > |s.sent|
  {
    hide HandleUserPrompts;
    if Prompts(command) && !Refused(s.contexts, command) {
      PromptsAsk(s, behavior, b);
    }
  }

  /** Whatever a command does after its guard, it asks for something or succeeds. */
  lemma {:induction false} PerformAsks(s: View, command: Command, behavior: PromptBehavior, b: Backend)
    requires Coherent(s.contexts) && !Refused(s.contexts, command)
    ensures Perform(s, command, behavior, b).Done? && |Perform(s, command, behavior, b).view.sent| >= |s.sent|
    ensures Perform(s, command, behavior, b).error.Some? ==> |Perform(s, command, behavior, b).view.sent| > |s.sent|
  {
    hide Click, AskAll;
    match command
    case Query(_, _, _, messages) => AskingOnlyAsks(s, messages, b);
    case ElementClick => ClickAsks(s, behavior, b);
    case _ =>
  }

  lemma {:induction false} ClickAsks(s: View, behavior: PromptBehavior, b: Backend)
    requires Coherent(s.contexts) && s.contexts.top.Some?
    ensures Click(s, behavior, b).Done? && |Click(s, behavior, b).view.sent| > |s.sent|
  {
    hide HandleUserPrompts, AskAll;
    AskingKeepsContexts(s, 2, b);
    AskingOnlyAsks(s, 2, b);
    var located := AskAll(s, 2, b).view;
    PromptsKeepContexts(located, behavior, b);
    PromptsAsk(located, behavior, b);
    AskingKeepsContexts(HandleUserPrompts(located, behavior, b).view, 1, b);
    AskingOnlyAsks(HandleUserPrompts(located, behavior, b).view, 1, b);
    var named := TagName(located, behavior, b).view;
    AskingKeepsContexts(named, 1, b);
    AskingOnlyAsks(named, 1, b);
  }

  lemma {:induction false} RunIsSafe(s: View, commands: seq<Command>, behavior: PromptBehavior, b: Backend)
    requires Coherent(s.contexts)
    ensures Run(s, commands, behavior, b).Done? && Coherent(Run(s, commands, behavior, b).view.contexts)
  {
    if commands != [] {
      var last := |commands| - 1;
      RunIsSafe(s, commands[..last], behavior, b);
      CommandIsSafe(Run(s, commands[..last], behavior, b).view, commands[last], behavior, b);
    }
  }

  /** No run of commands on a session reads a context that is gone. */
  lemma {:induction false} NoRunCrashes(commands: seq<Command>, behavior: PromptBehavior, b: Backend)
    ensures Open(b).Done? && Run(Open(b).view, commands, behavior, b).Done?
    ensures Coherent(Run(Open(b).view, commands, behavior, b).view.contexts)
  {
    RunIsSafe(Open(b).view, commands, behavior, b);
  }

  /** A command reports no such window without having asked the backend anything exactly
      when what it needs is gone. */
  lemma {:induction false} SilentIffRefused(s: View, command: Command, behavior: PromptBehavior, b: Backend)
    requires Coherent(s.contexts)
    ensures Execute(s, command, behavior, b).Done?
    ensures Execute(s, command, behavior, b).error == Some(NoSuchWindow) && Execute(s, command, behavior, b).view.sent == s.sent
       <==> Refused(s.contexts, command)
    ensures Refused(s.contexts, command) ==> Execute(s, command, behavior, b).view == s
  {
    hide HandleUserPrompts, Perform;
    CommandIsSafe(s, command, behavior, b);
    var waited := WaitIf(Waits(command), s, b);
    WaitingIsSafe(s, b);
    if !Stopped(waited) {
      AdmittedKeepsContexts(waited.view, command, behavior, b);
      AdmittedAsks(waited.view, command, behavior, b);
      var admitted := Admit(waited.view, command, behavior, b);
      if !Stopped(admitted) {
        PerformAsks(admitted.view, command, behavior, b);
      }
    }
  }

  /** Once the window is gone, the commands that need none are the only ones that do not
      report so, and nothing but a switch to another window brings one back. */
  lemma {:induction false} GoneWindow(s: View, command: Command, behavior: PromptBehavior, b: Backend)
    requires Coherent(s.contexts) && s.contexts.top == None
    ensures Execute(s, command, behavior, b) == Done(s, Some(NoSuchWindow)) <==> !NeedsNoWindow(command)
    ensures Execute(s, command, behavior, b).Done?
    ensures !command.SwitchToWindow? ==> Execute(s, command, behavior, b).view.contexts == s.contexts
  {
    SilentIffRefused(s, command, behavior, b);
  }

  /** So a run of commands that need a window neither sends nor changes anything. */
  lemma {:induction false} GoneWindowIsSilent(s: View, commands: seq<Command>, behavior: PromptBehavior, b: Backend)
    requires Coherent(s.contexts) && s.contexts.top == None
    requires forall k | 0 <= k < |commands| :: !NeedsNoWindow(commands[k])
    ensures Run(s, commands, behavior, b) == Done(s, if commands == [] then None else Some(NoSuchWindow))
  {
    if commands != [] {
      GoneWindowIsSilent(s, commands[..|commands| - 1], behavior, b);
    }
  }

  // ----- The parent of the current frame

  /** Whenever the backend answers what the parent of a frame is, it answers `parentOf`.
      It may also fail to answer. */
  ghost predicate Truthful(b: Backend, parentOf: string -> string) {
    && parentOf("") == ""
    && forall h: seq<Request> | |h| > 0 && h[|h| - 1].message == ResolveParentFrame && h[|h| - 1].frame.Some? ::
         b.reply(h).Answer? ==> b.reply(h).text == Some(parentOf(h[|h| - 1].frame.value))
  }

  /** It never fails to. */
  ghost predicate Informed(b: Backend) {
    forall h: seq<Request> | |h| > 0 && h[|h| - 1].message == ResolveParentFrame :: b.reply(h).Answer?
  }

  ghost predicate Tracked(c: Contexts, parentOf: string -> string) {
    c.current.Some? ==> c.parent == Some(parentOf(c.current.value))
  }

  lemma {:induction false} MoveTracksParent(s: View, frame: string, b: Backend, parentOf: string -> string)
    requires s.contexts.top.Some? && Tracked(s.contexts, parentOf) && Truthful(b, parentOf) && Informed(b)
    ensures MoveTo(s, frame, b).Done? && Tracked(MoveTo(s, frame, b).view.contexts, parentOf)
  {
  }

  lemma {:induction false} PerformTracksParent(s: View, command: Command, behavior: PromptBehavior, b: Backend,
                                               parentOf: string -> string)
    requires Coherent(s.contexts) && Tracked(s.contexts, parentOf) && Truthful(b, parentOf) && Informed(b)
    requires !Refused(s.contexts, command)
    ensures Perform(s, command, behavior, b).Done?
    ensures Tracked(Perform(s, command, behavior, b).view.contexts, parentOf)
  {
    hide Click, AskAll, MoveTo, Informed;
    PerformIsSafe(s, command, behavior, b);
    match command
    case Query(_, _, _, messages) => AskingKeepsContexts(s, messages, b);
    case ElementClick => ClickIsSafe(s, behavior, b);
    case SwitchToFrame =>
      var told := Tell(s, ResolveChildFrame, s.contexts.top.value, s.contexts.current);
      var reply := b.reply(told.sent);
      if reply.Answer? && reply.text.Some? {
        MoveTracksParent(told, reply.text.value, b, parentOf);
      }
    case SwitchToParentFrame => MoveTracksParent(s, s.contexts.parent.value, b, parentOf);
    case _ =>
  }

  lemma {:induction false} CommandTracksParent(s: View, command: Command, behavior: PromptBehavior, b: Backend,
                                               parentOf: string -> string)
    requires Coherent(s.contexts) && Tracked(s.contexts, parentOf) && Truthful(b, parentOf) && Informed(b)
    ensures Execute(s, command, behavior, b).Done?
    ensures Tracked(Execute(s, command, behavior, b).view.contexts, parentOf)
  {
    hide WaitForNavigationToComplete, HandleUserPrompts, Perform, Truthful, Informed;
    CommandIsSafe(s, command, behavior, b);
    WaitingIsSafe(s, b);
    var waited := WaitIf(Waits(command), s, b);
    if !Stopped(waited) {
      AdmittedKeepsContexts(waited.view, command, behavior, b);
      var admitted := Admit(waited.view, command, behavior, b);
      if !Stopped(admitted) {
        PerformTracksParent(admitted.view, command, behavior, b, parentOf);
      }
    }
  }

  /** As long as the backend always answers, the recorded parent is the current frame's
      parent, in every run. */
  lemma {:induction false} RunTracksParent(commands: seq<Command>, behavior: PromptBehavior, b: Backend,
                                           parentOf: string -> string)
    requires Truthful(b, parentOf) && Informed(b)
    ensures Run(Open(b).view, commands, behavior, b).Done?
    ensures Tracked(Run(Open(b).view, commands, behavior, b).view.contexts, parentOf)
  {
    NoRunCrashes(commands, behavior, b);
    if commands != [] {
      var last := |commands| - 1;
      NoRunCrashes(commands[..last], behavior, b);
      RunTracksParent(commands[..last], behavior, b, parentOf);
      CommandTracksParent(Run(Open(b).view, commands[..last], behavior, b).view, commands[last], behavior, b, parentOf);
    }
  }

  /** A switch into the frame `child` that reports success. */
  ghost predicate Enters(s: View, behavior: PromptBehavior, b: Backend, inside: View, child: string) {
    && Execute(s, SwitchToFrame, behavior, b) == Done(inside, None)
    && inside.contexts.current == Some(child) && child != ""
  }

  /** A switch to the parent frame that reports success. */
  ghost predicate Leaves(s: View, behavior: PromptBehavior, b: Backend, outside: View) {
    Execute(s, SwitchToParentFrame, behavior, b) == Done(outside, None)
  }

  /** Into a child frame and out again. A command that could not learn the parent reports
      success all the same. Without it on the way in, the way out leads from a frame to its
      grandparent; without it on the way out, the frame is recorded as its own parent. */
  lemma {:induction false} InAndOutOfFrame(s: View, behavior: PromptBehavior, b: Backend, parentOf: string -> string,
                                           inside: View, outside: View, child: string)
    requires Coherent(s.contexts) && Tracked(s.contexts, parentOf) && Truthful(b, parentOf)
    requires s.contexts.current == Some(parentOf(child))
    ensures Enters(s, behavior, b, inside, child) && Leaves(inside, behavior, b, outside) ==>
              && (outside.contexts.current == s.contexts.current
                  <==> b.reply(inside.sent).Answer? || parentOf(parentOf(child)) == parentOf(child))
              && (outside.contexts == s.contexts
                  <==> (b.reply(inside.sent).Answer? && b.reply(outside.sent).Answer?)
                       || parentOf(parentOf(child)) == parentOf(child))
  {
    hide Enters, Leaves, Execute;
    if Enters(s, behavior, b, inside, child) && Leaves(inside, behavior, b, outside) {
      EnterFrame(s, behavior, b, parentOf, inside, child);
      LeaveFrame(inside, behavior, b, parentOf, outside);
    }
  }

  lemma {:induction false} EnterFrame(s: View, behavior: PromptBehavior, b: Backend, parentOf: string -> string,
                                      inside: View, child: string)
    requires Coherent(s.contexts) && Truthful(b, parentOf)
    ensures Enters(s, behavior, b, inside, child) ==>
              && s.contexts.top.Some? && s.contexts.current.Some?
              && inside.contexts == Contexts(s.contexts.top, Some(child),
                   if b.reply(inside.sent).Answer? then Some(parentOf(child)) else s.contexts.parent)
  {
    hide WaitForNavigationToComplete, HandleUserPrompts, MoveTo, Truthful;
    if Enters(s, behavior, b, inside, child) {
      WaitingIsSafe(s, b);
      var waited := WaitForNavigationToComplete(s, b).view;
      AdmittedKeepsContexts(waited, SwitchToFrame, behavior, b);
      var admitted := Admit(waited, SwitchToFrame, behavior, b).view;
      assert admitted.contexts == s.contexts;
      var told := Tell(admitted, ResolveChildFrame, s.contexts.top.value, s.contexts.current);
      MovedTo(told, b.reply(told.sent).text.value, b, parentOf, inside);
    }
  }

  lemma {:induction false} MovedTo(s: View, frame: string, b: Backend, parentOf: string -> string, moved: View)
    requires s.contexts.top.Some? && Truthful(b, parentOf)
    ensures MoveTo(s, frame, b) == Done(moved, None) ==>
              moved.contexts == Contexts(s.contexts.top, Some(frame),
                if frame == "" then Some("")
                else if b.reply(moved.sent).Answer? then Some(parentOf(frame))
                else s.contexts.parent)
  {
  }

  lemma {:induction false} LeaveFrame(s: View, behavior: PromptBehavior, b: Backend, parentOf: string -> string,
                                      outside: View)
    requires Coherent(s.contexts) && Truthful(b, parentOf)
    ensures Leaves(s, behavior, b, outside) ==>
              && s.contexts.parent.Some?
              && outside.contexts.top == s.contexts.top
              && outside.contexts.current == s.contexts.parent
              && outside.contexts.parent ==
                   if s.contexts.parent.value == "" then Some("")
                   else if b.reply(outside.sent).Answer? then Some(parentOf(s.contexts.parent.value))
                   else s.contexts.parent
  {
    hide WaitForNavigationToComplete, HandleUserPrompts, MoveTo, Truthful;
    if Leaves(s, behavior, b, outside) {
      WaitingIsSafe(s, b);
      var waited := WaitForNavigationToComplete(s, b).view;
      AdmittedKeepsContexts(waited, SwitchToParentFrame, behavior, b);
      var admitted := Admit(waited, SwitchToParentFrame, behavior, b).view;
      MovedTo(admitted, s.contexts.parent.value, b, parentOf, outside);
    }
  }

  /** A backend with the frames "a", "b" inside of it and "c" inside of that, which has no
      answer when asked for the parent of `forgotten`. */
  function Forgetful(forgotten: string): Backend {
    Backend(h => Recalls(forgotten, h), h => true)
  }

  function Recalls(forgotten: string, h: seq<Request>): Reply {
    if h == [] then Empty
    else match h[|h| - 1].message
      case IsShowingDialog => Answer(None, Some(false))
      case ResolveChildFrame => Answer(Some("c"), None)
      case ResolveParentFrame =>
        if h[|h| - 1].frame == Some(forgotten) then Empty
        else Answer(Some(if h[|h| - 1].frame == Some("c") then "b" else "a"), None)
      case _ => Empty
  }

  /** From "b" into "c" and out again, both reported as successes, ends in "a". */
  lemma {:induction false} ParentFrameCanBeSkipped(s: View, behavior: PromptBehavior)
    requires s.contexts == Contexts(Some("window"), Some("b"), Some("a"))
    ensures var inside := Execute(s, SwitchToFrame, behavior, Forgetful("c"));
            && inside.Done? && inside.error == None && inside.view.contexts.current == Some("c")
            && var outside := Execute(inside.view, SwitchToParentFrame, behavior, Forgetful("c"));
               outside.Done? && outside.error == None && outside.view.contexts.current == Some("a")
  {
    var entered := SwitchedByForgetful(s, SwitchToFrame, behavior, "c");
    var left := SwitchedByForgetful(entered, SwitchToParentFrame, behavior, "c");
  }

  /** If the parent of "b" is what is not answered, "b" is its own parent from then on, and
      switching to the parent frame stays there. */
  lemma {:induction false} FrameCanBecomeItsOwnParent(s: View, behavior: PromptBehavior)
    requires s.contexts == Contexts(Some("window"), Some("b"), Some("a"))
    ensures var inside := Execute(s, SwitchToFrame, behavior, Forgetful("b"));
            && inside.Done? && inside.error == None
            && inside.view.contexts == Contexts(Some("window"), Some("c"), Some("b"))
            && var outside := Execute(inside.view, SwitchToParentFrame, behavior, Forgetful("b"));
               && outside.Done? && outside.error == None
               && outside.view.contexts == Contexts(Some("window"), Some("b"), Some("b"))
               && var again := Execute(outside.view, SwitchToParentFrame, behavior, Forgetful("b"));
                  again.Done? && again.error == None && again.view.contexts == outside.view.contexts
  {
    var entered := SwitchedByForgetful(s, SwitchToFrame, behavior, "b");
    var left := SwitchedByForgetful(entered, SwitchToParentFrame, behavior, "b");
    var stayed := SwitchedByForgetful(left, SwitchToParentFrame, behavior, "b");
  }

  lemma {:induction false} SwitchedByForgetful(s: View, command: Command, behavior: PromptBehavior, forgotten: string)
    returns (after: View)
    requires s.contexts.top.Some? && s.contexts.current.Some? && s.contexts.parent.Some? && s.contexts.parent.value != ""
    requires command.SwitchToFrame? || command.SwitchToParentFrame?
    ensures Execute(s, command, behavior, Forgetful(forgotten)) == Done(after, None)
    ensures var frame := if command.SwitchToFrame? then "c" else s.contexts.parent.value;
            after.contexts == Contexts(s.contexts.top, Some(frame),
              if frame == forgotten then s.contexts.parent else Some(if frame == "c" then "b" else "a"))
  {
    hide Click, AskAll, Handle, MoveTo;
    var b := Forgetful(forgotten);
    var waited := WaitForNavigationToComplete(s, b).view;
    assert waited.contexts == s.contexts;
    after := HandledByForgetful(waited, command, behavior, forgotten);
  }

  lemma {:induction false} HandledByForgetful(s: View, command: Command, behavior: PromptBehavior, forgotten: string)
    returns (after: View)
    requires s.contexts.top.Some? && s.contexts.current.Some? && s.contexts.parent.Some? && s.contexts.parent.value != ""
    requires command.SwitchToFrame? || command.SwitchToParentFrame?
    ensures Handle(s, command, behavior, Forgetful(forgotten)) == Done(after, None)
    ensures var frame := if command.SwitchToFrame? then "c" else s.contexts.parent.value;
            after.contexts == Contexts(s.contexts.top, Some(frame),
              if frame == forgotten then s.contexts.parent else Some(if frame == "c" then "b" else "a"))
  {
    hide Click, AskAll, MoveTo;
    var b := Forgetful(forgotten);
    var admitted := Admit(s, command, behavior, b).view;
    assert Admit(s, command, behavior, b) == Done(admitted, None) && admitted.contexts == s.contexts;
    if command.SwitchToFrame? {
      var told := Tell(admitted, ResolveChildFrame, s.contexts.top.value, s.contexts.current);
      assert b.reply(told.sent) == Answer(Some("c"), None);
      after := MovedByForgetful(told, "c", forgotten);
    } else {
      after := MovedByForgetful(admitted, s.contexts.parent.value, forgotten);
    }
  }

  lemma {:induction false} MovedByForgetful(s: View, frame: string, forgotten: string) returns (after: View)
    requires s.contexts.top.Some? && frame != ""
    ensures MoveTo(s, frame, Forgetful(forgotten)) == Done(after, None)
    ensures after.contexts == Contexts(s.contexts.top, Some(frame),
              if frame == forgotten then s.contexts.parent else Some(if frame == "c" then "b" else "a"))
  {
    after := MoveTo(s, frame, Forgetful(forgotten)).view;
  }
}
