/** The session object itself. It reads a context's value without asking whether it is
    there; `Valid` is why it may. Each method does what the command's specification says. */
module WebDriverSession {
  import opened Wrappers
  import opened WebDriverContexts

  class Session {
    const behavior: PromptBehavior
    const backend: Backend
    var toplevelBrowsingContext: Option<string>
    var currentBrowsingContext: Option<string>
    var currentParentBrowsingContext: Option<string>
    var sent: seq<Request>

    ghost predicate Valid()
      reads this
    {
      Coherent(Now().contexts)
    }

    function Now(): View
      reads this
    {
      View(Contexts(toplevelBrowsingContext, currentBrowsingContext, currentParentBrowsingContext), sent)
    }

    /** A session with no window yet. */
    constructor (behavior: PromptBehavior, backend: Backend)
      ensures Valid() && this.behavior == behavior && this.backend == backend
      ensures Now() == View(Contexts(None, None, None), [])
    {
      this.behavior, this.backend := behavior, backend;
      toplevelBrowsingContext, currentBrowsingContext, currentParentBrowsingContext := None, None, None;
      sent := [];
    }

    method SendCommandToBackend(message: Message, window: string, frame: Option<string>) returns (reply: Reply)
      modifies this`sent
      ensures Now() == Tell(old(Now()), message, window, frame) && reply == backend.reply(sent)
    {
      sent := sent + [Request(message, window, frame)];
      reply := backend.reply(sent);
    }

    method CreateTopLevelBrowsingContext() returns (error: Option<Error>)
      requires Valid() && Now() == View(Contexts(None, None, None), [])
      modifies this
      ensures Valid() && Done(Now(), error) == Open(backend)
    {
      var reply := SendCommandToBackend(CreateContext, "", None);
      error := ErrorOf(reply);
      if error == None {
        if reply.text == None {
          return Some(UnknownError);
        }
        SwitchToTopLevelBrowsingContext(reply.text.value);
      }
    }

    method SwitchToTopLevelBrowsingContext(window: string)
      modifies this
      ensures Valid() && Now() == old(Now()).(contexts := TopLevel(window))
    {
      toplevelBrowsingContext := Some(window);
      currentBrowsingContext := Some("");
      currentParentBrowsingContext := Some("");
    }

    method AnswerAlert(message: Message) returns (error: Option<Error>)
      requires Valid()
      modifies this`sent
      ensures Done(Now(), error) == Alert(old(Now()), message, backend)
    {
      if toplevelBrowsingContext == None {
        return Some(NoSuchWindow);
      }
      var reply := SendCommandToBackend(message, toplevelBrowsingContext.value, None);
      error := FailureOf(reply);
    }

    method ReportUnexpectedAlertOpen()
      requires Valid()
      modifies this`sent
      ensures Now() == ReportUnexpectedAlert(old(Now()))
    {
      if toplevelBrowsingContext != None {
        var _ := SendCommandToBackend(DialogText, toplevelBrowsingContext.value, None);
      }
    }

    method HandleUserPrompts() returns (error: Option<Error>)
      requires Valid() && toplevelBrowsingContext.Some?
      modifies this`sent
      ensures Done(Now(), error) == WebDriverContexts.HandleUserPrompts(old(Now()), behavior, backend)
    {
      var reply := SendCommandToBackend(IsShowingDialog, toplevelBrowsingContext.value, None);
      error := ErrorOf(reply);
      if error != None {
        return;
      }
      if reply.flag == None {
        return Some(UnknownError);
      }
      if !reply.flag.value {
        return None;
      }
      var notify := !behavior.Dismiss? && !behavior.Accept?;
      if notify {
        ReportUnexpectedAlertOpen();
      }
      if behavior != Ignore {
        error := AnswerAlert(if behavior.Dismiss? || behavior.DismissAndNotify? then DismissDialog else AcceptDialog);
      }
      if notify && error == None {
        error := Some(UnexpectedAlertOpen);
      }
    }

    method WaitForNavigationToComplete() returns (error: Option<Error>)
      requires Valid()
      modifies this
      ensures Valid()
      ensures Done(Now(), error) == WebDriverContexts.WaitForNavigationToComplete(old(Now()), backend)
    {
      if currentBrowsingContext == None {
        return None;
      }
      var reply := SendCommandToBackend(WaitForNavigation, toplevelBrowsingContext.value, currentBrowsingContext);
      error := FailureOf(reply);
      if error == Some(NoSuchWindow) {
        toplevelBrowsingContext := None;
        currentBrowsingContext := None;
        currentParentBrowsingContext := None;
        error := None;
      } else if error == Some(NoSuchFrame) {
        currentBrowsingContext := None;
        error := None;
      }
    }

    method SwitchToBrowsingContext(frame: string)
      requires Valid() && toplevelBrowsingContext.Some?
      modifies this
      ensures Valid() && Done(Now(), None) == MakeCurrent(old(Now()), frame, backend)
    {
      currentBrowsingContext := Some(frame);
      if frame == "" {
        currentParentBrowsingContext := Some("");
        return;
      }
      var reply := SendCommandToBackend(ResolveParentFrame, toplevelBrowsingContext.value, currentBrowsingContext);
      if reply.Answer? {
        currentParentBrowsingContext := Some(if reply.text.Some? then reply.text.value else "");
      }
    }

    method SwitchInBackendAndHere(frame: string) returns (error: Option<Error>)
      requires Valid() && toplevelBrowsingContext.Some?
      modifies this
      ensures Valid() && Done(Now(), error) == MoveTo(old(Now()), frame, backend)
    {
      var reply := SendCommandToBackend(SwitchContext, toplevelBrowsingContext.value, Some(frame));
      error := FailureOf(reply);
      if error == None {
        SwitchToBrowsingContext(frame);
      }
    }

    method Go() returns (error: Option<Error>)
      requires Valid()
      modifies this
      ensures Valid() && Done(Now(), error) == Handle(old(Now()), GoSomewhere, behavior, backend)
    {
      if toplevelBrowsingContext == None {
        return Some(NoSuchWindow);
      }
      PromptsKeepContexts(Now(), behavior, backend);
      error := HandleUserPrompts();
      if error != None {
        return;
      }
      var reply := SendCommandToBackend(Navigate, toplevelBrowsingContext.value, None);
      error := FailureOf(reply);
      if error == None {
        SwitchToBrowsingContext("");
      }
    }

    method CloseWindow() returns (error: Option<Error>)
      requires Valid()
      modifies this
      ensures Valid() && Done(Now(), error) == Handle(old(Now()), Command.CloseWindow, behavior, backend)
    {
      if toplevelBrowsingContext == None {
        return Some(NoSuchWindow);
      }
      PromptsKeepContexts(Now(), behavior, backend);
      error := HandleUserPrompts();
      if error != None {
        return;
      }
      var window := toplevelBrowsingContext;
      toplevelBrowsingContext := None;
      currentBrowsingContext := None;
      currentParentBrowsingContext := None;
      var reply := SendCommandToBackend(CloseContext, window.value, None);
      if !backend.connected(sent) {
        return None;
      }
      error := FailureOf(reply);
      if error != None {
        return;
      }
      error := GetWindowHandles();
      if !backend.connected(sent) {
        error := None;
      }
    }

    method GetWindowHandles() returns (error: Option<Error>)
      requires Valid()
      modifies this`sent
      ensures Valid() && Done(Now(), error) == ListWindows(old(Now()), backend)
    {
      var reply := SendCommandToBackend(ListContexts, "", None);
      error := ErrorOf(reply);
    }

    method SwitchToWindow(handle: string) returns (error: Option<Error>)
      requires Valid()
      modifies this
      ensures Valid() && Done(Now(), error) == Handle(old(Now()), Command.SwitchToWindow(handle), behavior, backend)
    {
      var reply := SendCommandToBackend(SwitchContext, handle, Some(""));
      error := FailureOf(reply);
      if error == None {
        SwitchToTopLevelBrowsingContext(handle);
      }
    }

    method SwitchToFrame(isNull: bool) returns (error: Option<Error>)
      requires Valid()
      modifies this
      ensures Valid()
      ensures Done(Now(), error)
           == Handle(old(Now()), if isNull then SwitchToTopFrame else Command.SwitchToFrame, behavior, backend)
    {
      if isNull {
        if toplevelBrowsingContext == None {
          return Some(NoSuchWindow);
        }
        SwitchToBrowsingContext("");
        return None;
      }
      if currentBrowsingContext == None {
        return Some(NoSuchWindow);
      }
      PromptsKeepContexts(Now(), behavior, backend);
      error := HandleUserPrompts();
      if error != None {
        return;
      }
      var reply := SendCommandToBackend(ResolveChildFrame, toplevelBrowsingContext.value, currentBrowsingContext);
      error := ErrorOf(reply);
      if error != None {
        return;
      }
      if reply.text == None {
        return Some(UnknownError);
      }
      error := SwitchInBackendAndHere(reply.text.value);
    }

    method SwitchToParentFrame() returns (error: Option<Error>)
      requires Valid()
      modifies this
      ensures Valid() && Done(Now(), error) == Handle(old(Now()), Command.SwitchToParentFrame, behavior, backend)
    {
      if currentParentBrowsingContext == None {
        return Some(NoSuchWindow);
      }
      PromptsKeepContexts(Now(), behavior, backend);
      error := HandleUserPrompts();
      if error != None {
        return;
      }
      error := SwitchInBackendAndHere(currentParentBrowsingContext.value);
      if error == Some(NoSuchFrame) {
        error := Some(NoSuchWindow);
      }
    }

    /** The requests of a command that stores nothing, up to the first that fails. */
    method AskQuestions(messages: nat) returns (error: Option<Error>)
      requires Valid() && toplevelBrowsingContext.Some?
      modifies this`sent
      ensures Valid() && Done(Now(), error) == AskAll(old(Now()), messages, backend)
    {
      error := None;
      var left := messages;
      while left > 0 && error == None
        invariant Valid()
        invariant error == None ==> AskAll(Now(), left, backend) == AskAll(old(Now()), messages, backend)
        invariant error != None ==> Done(Now(), error) == AskAll(old(Now()), messages, backend)
        decreases left, error == None
      {
        var reply := SendCommandToBackend(Ask, toplevelBrowsingContext.value, currentBrowsingContext);
        error := ErrorOf(reply);
        left := left - 1;
      }
    }

    method GetElementTagName() returns (error: Option<Error>)
      requires Valid()
      modifies this`sent
      ensures Valid() && TagName(old(Now()), behavior, backend).Done?
      ensures Now() == TagName(old(Now()), behavior, backend).view
    {
      if currentBrowsingContext == None {
        return Some(NoSuchWindow);
      }
      error := HandleUserPrompts();
      if error == None {
        error := AskQuestions(1);
      }
    }

    /** Once the prompts are out of the way: is it a file upload, where is it, what is it,
        and the click itself. */
    method ElementClick() returns (error: Option<Error>)
      requires Valid() && toplevelBrowsingContext.Some?
      modifies this
      ensures Valid() && Done(Now(), error) == Click(old(Now()), behavior, backend)
    {
      hide AskAll, TagName, WebDriverContexts.WaitForNavigationToComplete;
      error := AskQuestions(2);
      if error != None {
        return;
      }
      var _ := GetElementTagName();
      error := AskQuestions(1);
      if error != None {
        return;
      }
      error := WaitForNavigationToComplete();
    }

    /** A command that stores nothing, or a click. */
    method Question(command: Command) returns (error: Option<Error>)
      requires Valid() && (command.Query? || command.ElementClick?)
      modifies this
      ensures Valid() && Done(Now(), error) == Handle(old(Now()), command, behavior, backend)
    {
      hide AskAll, Click, WebDriverContexts.HandleUserPrompts;
      if Refused(Now().contexts, command) {
        return Some(NoSuchWindow);
      }
      error := None;
      if Prompts(command) {
        error := HandleUserPrompts();
        if error != None {
          return;
        }
      }
      if command.Query? {
        error := AskQuestions(command.messages);
      } else {
        error := ElementClick();
      }
    }

    method HandleCommand(command: Command) returns (error: Option<Error>)
      requires Valid()
      modifies this
      ensures Valid() && Done(Now(), error) == Handle(old(Now()), command, behavior, backend)
    {
      hide Perform;
      match command
      case GoSomewhere => error := Go();
      case CloseWindow => error := CloseWindow();
      case SwitchToWindow(handle) => error := SwitchToWindow(handle);
      case SwitchToTopFrame => error := SwitchToFrame(true);
      case SwitchToFrame => error := SwitchToFrame(false);
      case SwitchToParentFrame => error := SwitchToParentFrame();
      case GetWindowHandles => error := ListOrNothing(command);
      case Timeouts => error := ListOrNothing(command);
      case _ => error := Question(command);
    }

    method ListOrNothing(command: Command) returns (error: Option<Error>)
      requires Valid() && (command.GetWindowHandles? || command.Timeouts?)
      modifies this`sent
      ensures Valid() && Done(Now(), error) == Handle(old(Now()), command, behavior, backend)
    {
      error := None;
      if command.GetWindowHandles? {
        error := GetWindowHandles();
      }
    }

    /** The service's part: some commands wait for navigation first. */
    method ExecuteCommand(command: Command) returns (error: Option<Error>)
      requires Valid()
      modifies this
      ensures Valid() && Done(Now(), error) == Execute(old(Now()), command, behavior, backend)
    {
      hide Handle, WebDriverContexts.WaitForNavigationToComplete;
      error := None;
      if Waits(command) {
        error := WaitForNavigationToComplete();
      }
      if error == None {
        error := HandleCommand(command);
      }
    }

    /** A whole run, which never reads a context that is gone. */
    method RunCommands(commands: seq<Command>) returns (error: Option<Error>)
      requires Valid()
      modifies this
      ensures Valid() && Done(Now(), error) == Run(old(Now()), commands, behavior, backend)
    {
      hide Execute;
      error := None;
      for i := 0 to |commands|
        invariant Valid() && Done(Now(), error) == Run(old(Now()), commands[..i], behavior, backend)
      {
        assert commands[..i + 1][..i] == commands[..i];
        error := ExecuteCommand(commands[i]);
      }
      assert commands[..|commands|] == commands;
    }
  }
}
