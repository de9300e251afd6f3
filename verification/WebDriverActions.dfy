/** Perform Actions and Release Actions: parsing of action sequences, the input
    sources of a session, and the input state that each emitted step carries. */
module WebDriverActions {
  import opened Wrappers
  import opened WebDriverKeys
  import opened WebDriverTicks
  import Contexts = WebDriverContexts
  import WebDriverSession

  datatype Kind = NullKind | KeyKind | PointerKind | WheelKind
  datatype Subtype = Pause | PointerUp | PointerDown | PointerMove | PointerCancel | KeyUp | KeyDown | Scroll
  datatype MouseButton = NoButton | Left | Middle | Right
  datatype PointerType = Mouse | Pen | Touch
  datatype Origin = Viewport | FromPointer | Element(elementID: string)

  datatype Action = Action(
    id: string, kind: Kind, subtype: Subtype, duration: Option<nat>, pointerType: Option<PointerType>,
    button: Option<MouseButton>, origin: Option<Origin>, x: Option<int>, y: Option<int>,
    deltaX: Option<int>, deltaY: Option<int>, key: Option<Text>)

  // ----- The request

  datatype Item = NotAnObject | Item(
    typ: string, duration: Field<nat>, value: Field<Text>, button: Field<nat>, origin: Field<Origin>,
    x: Field<int>, y: Field<int>, deltaX: Field<int>, deltaY: Field<int>)

  /** `pointerType` is the pointer type in the sequence's parameters. */
  datatype Sequence = NotASequence | Sequence(
    typ: string, id: Option<string>, pointerType: Field<PointerType>, items: Option<seq<Item>>)

  function KindOf(typ: string): Option<Kind> {
    if typ == "key" then Some(KeyKind)
    else if typ == "pointer" then Some(PointerKind)
    else if typ == "wheel" then Some(WheelKind)
    else if typ == "none" then Some(NullKind)
    else None
  }

  function SubtypeOf(kind: Kind, typ: string): Option<Subtype> {
    if typ == "pause" then Some(Pause)
    else match kind
      case NullKind => None
      case KeyKind => if typ == "keyUp" then Some(KeyUp) else if typ == "keyDown" then Some(KeyDown) else None
      case PointerKind =>
        if typ == "pointerUp" then Some(PointerUp)
        else if typ == "pointerDown" then Some(PointerDown)
        else if typ == "pointerMove" then Some(PointerMove)
        else if typ == "pointerCancel" then Some(PointerCancel)
        else None
      case WheelKind => if typ == "scroll" then Some(Scroll) else None
  }

  function ActionMouseButton(button: nat): MouseButton {
    match button
    case 0 => Left
    case 1 => Middle
    case 2 => Right
    case _ => NoButton
  }

  /** An optional member: absent is fine, of the wrong form is not. */
  predicate Acceptable<T>(f: Field<T>) { !f.Invalid? }

  function ToOption<T>(f: Field<T>): Option<T> {
    match f case Given(v) => Some(v) case _ => None
  }

  /** processNullAction, processKeyAction, processPointerAction and processWheelAction. */
  function ProcessItem(kind: Kind, id: string, pointerType: Option<PointerType>, item: Item): Option<Action> {
    if item.NotAnObject? || SubtypeOf(kind, item.typ) == None then None
    else
      var subtype := SubtypeOf(kind, item.typ).value;
      var action := Action(id, kind, subtype, None, if kind == PointerKind then pointerType else None,
                           None, None, None, None, None, None, None);
      match subtype
      case Pause =>
        if Acceptable(item.duration) then Some(action.(duration := ToOption(item.duration))) else None
      case KeyUp =>
        if item.value.Given? && item.value.value != [] then Some(action.(key := Some(item.value.value))) else None
      case KeyDown =>
        if item.value.Given? && item.value.value != [] then Some(action.(key := Some(item.value.value))) else None
      case PointerUp =>
        if item.button.Given? then Some(action.(button := Some(ActionMouseButton(item.button.value)))) else None
      case PointerDown =>
        if item.button.Given? then Some(action.(button := Some(ActionMouseButton(item.button.value)))) else None
      case PointerMove => ProcessMove(action, item)
      case PointerCancel => Some(action)
      case Scroll =>
        var moved := ProcessMove(action, item);
        if moved.Some? && Acceptable(item.deltaX) && Acceptable(item.deltaY)
        then Some(moved.value.(deltaX := ToOption(item.deltaX), deltaY := ToOption(item.deltaY)))
        else None
  }

  function ProcessMove(action: Action, item: Item): Option<Action>
    requires item.Item?
  {
    if Acceptable(item.duration) && Acceptable(item.origin) && Acceptable(item.x) && Acceptable(item.y)
    then Some(action.(duration := ToOption(item.duration),
                      origin := Some(if item.origin.Given? then item.origin.value else Viewport),
                      x := ToOption(item.x), y := ToOption(item.y)))
    else None
  }

  /** What parsing guarantees of an action, and the switches of performActions rely on. */
  predicate WellTyped(a: Action) {
    match a.subtype
    case Pause => true
    case PointerUp => a.kind == PointerKind
    case PointerDown => a.kind == PointerKind && a.button.Some?
    case PointerMove => a.kind == PointerKind && a.origin.Some?
    case PointerCancel => a.kind == PointerKind
    case KeyUp => a.kind == KeyKind && a.key.Some? && a.key.value != []
    case KeyDown => a.kind == KeyKind && a.key.Some? && a.key.value != []
    case Scroll => a.kind == WheelKind && a.origin.Some?
  }

  /** The coordinates that parsing leaves optional and performing takes for granted. */
  predicate HasCoordinates(a: Action) {
    && (a.subtype in {PointerMove, Scroll} ==> a.x.Some? && a.y.Some?)
    && (a.subtype == Scroll ==> a.deltaX.Some? && a.deltaY.Some?)
  }

  lemma {:induction false} ParsedIsWellTyped(kind: Kind, id: string, pointerType: Option<PointerType>, item: Item)
    ensures var a := ProcessItem(kind, id, pointerType, item);
            a.Some? ==> WellTyped(a.value) && a.value.id == id && a.value.kind == kind
                        && (kind == PointerKind ==> a.value.pointerType == pointerType)
  {
  }

  // ----- Input state

  datatype InputSource = InputSource(kind: Kind, pointerType: Option<PointerType>)
  datatype SourceState = SourceState(pressedButton: Option<MouseButton>, pressedKey: Option<Text>, pressedVirtualKeys: set<string>)

  const RELEASED := SourceState(None, None, {})

  function VirtualName(a: Action): Option<string>
    requires a.key.Some? && a.key.value != []
  {
    match VirtualKeyForKey(a.key.value[0]) case Some(k) => Some(k.name) case None => None
  }

  /** What one action does to the state of its source. */
  function After(st: SourceState, a: Action): SourceState
    requires WellTyped(a)
  {
    match a.subtype
    case PointerUp => st.(pressedButton := None)
    case PointerCancel => st.(pressedButton := None)
    case PointerDown => st.(pressedButton := Some(a.button.value))
    case KeyUp =>
      (match VirtualName(a)
       case Some(name) => st.(pressedVirtualKeys := st.pressedVirtualKeys - {name})
       case None => st.(pressedKey := None))
    case KeyDown =>
      (match VirtualName(a)
       case Some(name) => st.(pressedVirtualKeys := st.pressedVirtualKeys + {name})
       case None => st.(pressedKey := Some(a.key.value)))
    case _ => st
  }

  predicate AllWellTyped(h: seq<Action>) {
    forall k | 0 <= k < |h| :: WellTyped(h[k])
  }

  function Fold(h: seq<Action>): SourceState
    requires AllWellTyped(h)
  {
    if h == [] then RELEASED else After(Fold(h[..|h| - 1]), h[|h| - 1])
  }

  function SourceOf(a: Action): string { a.id }

  lemma {:induction false} OnlyIsWellTyped(h: seq<Action>, id: string)
    requires AllWellTyped(h)
    ensures AllWellTyped(Only(h, SourceOf, id))
  {
    if h != [] {
      OnlyIsWellTyped(h[..|h| - 1], id);
    }
  }

  /** The state of a source after a history of actions of any sources. */
  function StateAfter(h: seq<Action>, id: string): SourceState
    requires AllWellTyped(h)
  {
    OnlyIsWellTyped(h, id);
    Fold(Only(h, SourceOf, id))
  }

  lemma {:induction false} StateStep(h: seq<Action>, a: Action, id: string)
    requires AllWellTyped(h) && WellTyped(a)
    ensures StateAfter(h + [a], id) == if a.id == id then After(StateAfter(h, id), a) else StateAfter(h, id)
  {
    assert (h + [a])[..|h|] == h;
    OnlyIsWellTyped(h, id);
    if a.id == id {
      var only := Only(h, SourceOf, id);
      assert (only + [a])[..|only|] == only;
    } else {
      assert Only(h + [a], SourceOf, id) == Only(h, SourceOf, id);
    }
  }

  // ----- What the fold means

  /** Went down at some point, and nothing took it up since. */
  ghost predicate StillDown(h: seq<Action>, down: Action -> bool, up: Action -> bool) {
    exists i :: 0 <= i < |h| && down(h[i]) && forall j | i < j < |h| :: !up(h[j])
  }

  lemma {:induction false} StillDownStep(h: seq<Action>, down: Action -> bool, up: Action -> bool)
    requires h != []
    ensures StillDown(h, down, up) <==>
            down(h[|h| - 1]) || (StillDown(h[..|h| - 1], down, up) && !up(h[|h| - 1]))
  {
    var before, last := h[..|h| - 1], h[|h| - 1];
    if down(last) {
      assert down(h[|h| - 1]);
    } else {
      if i :| 0 <= i < |before| && down(before[i]) && forall j | i < j < |before| :: !up(before[j]) {
        assert !up(last) ==> down(h[i]) && forall j | i < j < |h| :: !up(h[j]);
      }
      if i :| 0 <= i < |h| && down(h[i]) && forall j | i < j < |h| :: !up(h[j]) {
        assert down(before[i]) && forall j | i < j < |before| :: !up(before[j]);
      }
    }
  }

  predicate MovesButton(a: Action) { a.subtype in {PointerUp, PointerDown, PointerCancel} }

  function Presses(b: MouseButton): Action -> bool {
    (a: Action) => a.subtype == PointerDown && a.button == Some(b)
  }

  /** A button is pressed exactly when it went down and nothing moved a button since. */
  lemma {:induction false} PressedButtonMeans(h: seq<Action>, b: MouseButton)
    requires AllWellTyped(h)
    ensures Fold(h).pressedButton == Some(b) <==>
            StillDown(h, Presses(b), MovesButton)
  {
    if h != [] {
      hide VirtualName;
      PressedButtonMeans(h[..|h| - 1], b);
      StillDownStep(h, Presses(b), MovesButton);
    }
  }

  predicate Strikes(a: Action, subtype: Subtype, name: Option<string>) {
    a.subtype == subtype && a.key.Some? && a.key.value != [] && VirtualName(a) == name
  }

  function StrikesVirtual(subtype: Subtype, name: string): Action -> bool {
    (a: Action) => Strikes(a, subtype, Some(name))
  }

  function StrikesCharKey(key: Text): Action -> bool {
    (a: Action) => Strikes(a, KeyDown, None) && a.key == Some(key)
  }

  predicate MovesCharKey(a: Action) {
    Strikes(a, KeyDown, None) || Strikes(a, KeyUp, None)
  }

  /** A virtual key is pressed exactly when it went down and did not go up since. */
  lemma {:induction false} VirtualKeyMeans(h: seq<Action>, name: string)
    requires AllWellTyped(h)
    ensures name in Fold(h).pressedVirtualKeys <==>
            StillDown(h, StrikesVirtual(KeyDown, name), StrikesVirtual(KeyUp, name))
  {
    if h != [] {
      hide VirtualName;
      VirtualKeyMeans(h[..|h| - 1], name);
      StillDownStep(h, StrikesVirtual(KeyDown, name), StrikesVirtual(KeyUp, name));
    }
  }

  /** A character key is pressed exactly when it went down and no character key moved since. */
  lemma {:induction false} CharKeyMeans(h: seq<Action>, key: Text)
    requires AllWellTyped(h)
    ensures Fold(h).pressedKey == Some(key) <==>
            StillDown(h, StrikesCharKey(key),
                      MovesCharKey)
  {
    if h != [] {
      hide VirtualName;
      CharKeyMeans(h[..|h| - 1], key);
      StillDownStep(h, StrikesCharKey(key),
                    MovesCharKey);
    }
  }

  // ----- Emitted steps

  datatype StepState = StepState(
    sourceId: string, duration: Option<nat>,
    pressedButton: Option<MouseButton>, pressedCharKey: Option<Text>, pressedVirtualKeys: set<string>,
    origin: Option<Origin>, location: Option<(int, int)>, delta: Option<(int, int)>)

  /** The object sent for one action, given the state of its source right after it. */
  function Emit(a: Action, st: SourceState): StepState
    requires WellTyped(a) && HasCoordinates(a)
  {
    StepState(
      a.id,
      if a.kind == NullKind || a.subtype in {Pause, PointerMove, Scroll} then a.duration else None,
      if a.kind == PointerKind then st.pressedButton else None,
      if a.kind == KeyKind then st.pressedKey else None,
      if a.kind == KeyKind then st.pressedVirtualKeys else {},
      if a.subtype in {PointerMove, Scroll} then a.origin else None,
      if a.subtype in {PointerMove, Scroll} then Some((a.x.value, a.y.value)) else None,
      if a.subtype == Scroll then Some((a.deltaX.value, a.deltaY.value)) else None)
  }

  /** The emitted steps of `ticks`, for a session in which `h` has been performed before:
      each state carries what its own source has pressed right after its own action. */
  ghost predicate AreStepsOf(steps: seq<seq<StepState>>, ticks: seq<seq<Action>>, h: seq<Action>) {
    |steps| == |ticks| && AreFirstSteps(steps, ticks, h)
  }

  ghost predicate AreFirstSteps(steps: seq<seq<StepState>>, ticks: seq<seq<Action>>, h: seq<Action>)
    requires |steps| <= |ticks|
  {
    forall t | 0 <= t < |steps| :: IsStepOf(steps[t], ticks[t], h + Flatten(ticks[..t]))
  }

  lemma {:induction false} NoSteps(ticks: seq<seq<Action>>, h: seq<Action>)
    ensures AreFirstSteps([], ticks, h)
  {
  }

  lemma {:induction false} OneStepMore(steps: seq<seq<StepState>>, step: seq<StepState>, ticks: seq<seq<Action>>, h: seq<Action>)
    requires |steps| < |ticks| && AreFirstSteps(steps, ticks, h)
    requires IsStepOf(step, ticks[|steps|], h + Flatten(ticks[..|steps|]))
    ensures AreFirstSteps(steps + [step], ticks, h)
  {
    hide IsStepOf;
  }

  ghost predicate IsStepOf(step: seq<StepState>, tick: seq<Action>, h: seq<Action>) {
    |step| == |tick| && forall k | 0 <= k < |tick| :: IsStateOf(step[k], tick, k, h)
  }

  ghost predicate IsStateOf(state: StepState, tick: seq<Action>, k: nat, h: seq<Action>)
    requires k < |tick|
  {
    && AllWellTyped(h + tick[..k + 1]) && WellTyped(tick[k]) && HasCoordinates(tick[k])
    && state == Emit(tick[k], StateAfter(h + tick[..k + 1], tick[k].id))
  }

  /** Every action was parsed for a registered source. */
  ghost predicate Performable(tick: seq<Action>, sources: map<string, InputSource>) {
    forall k | 0 <= k < |tick| :: WellTyped(tick[k]) && Registered(sources, tick[k])
  }

  /** Every action has the coordinates it needs; performing one that has not is a crash. */
  predicate Positioned(tick: seq<Action>) {
    forall k | 0 <= k < |tick| :: HasCoordinates(tick[k])
  }

  predicate AllPositioned(ticks: seq<seq<Action>>) {
    forall t | 0 <= t < |ticks| :: Positioned(ticks[t])
  }

  /** What became of Perform Actions: an error before anything was performed, no action to
      perform, a crash, or steps that were sent, with the error that came back. */
  datatype Performance = Refused(error: Contexts.Error) | Nothing | Crashed
    | Sent(steps: seq<seq<StepState>>, sources: seq<SourceEntry>, answer: Option<Contexts.Error>)

  /** As far as contexts go, the command asks one thing. */
  const PERFORM := Contexts.Query(false, true, true, 1)

  /** What the backend calls a source. */
  datatype SourceType = Null | MousePointer | TouchPointer | PenPointer | Keyboard | Wheel

  function AutomationSourceType(source: InputSource): SourceType {
    match source.kind
    case NullKind => Null
    case KeyKind => Keyboard
    case WheelKind => Wheel
    case PointerKind =>
      match source.pointerType
      case Some(Touch) => TouchPointer
      case Some(Pen) => PenPointer
      case _ => MousePointer
  }

  datatype SourceEntry = SourceEntry(sourceId: string, sourceType: SourceType)

  ghost predicate Acts(h: seq<Action>, id: string) {
    exists k :: 0 <= k < |h| && h[k].id == id
  }

  ghost predicate IsListed(entries: seq<SourceEntry>, id: string) {
    exists i :: 0 <= i < |entries| && entries[i].sourceId == id
  }

  /** Each source that acts, once, with the type it is registered with. */
  ghost predicate ListsSources(entries: seq<SourceEntry>, h: seq<Action>, sources: map<string, InputSource>) {
    && (forall i, j | 0 <= i < j < |entries| :: entries[i].sourceId != entries[j].sourceId)
    && (forall i | 0 <= i < |entries| :: IsEntryOf(entries[i], h, sources))
    && (forall k | 0 <= k < |h| :: IsListed(entries, h[k].id))
  }

  ghost predicate IsEntryOf(entry: SourceEntry, h: seq<Action>, sources: map<string, InputSource>) {
    && Acts(h, entry.sourceId) && entry.sourceId in sources
    && entry.sourceType == AutomationSourceType(sources[entry.sourceId])
  }

  lemma {:induction false} StateIsOf(state: StepState, tick: seq<Action>, k: nat, h: seq<Action>, performed: seq<Action>)
    requires k < |tick| && performed == h + tick[..k + 1]
    requires AllWellTyped(performed) && WellTyped(tick[k]) && HasCoordinates(tick[k])
    requires state == Emit(tick[k], StateAfter(performed, tick[k].id))
    ensures IsStateOf(state, tick, k, h)
  {
  }

  class InputSession {
    var activeInputSources: map<string, InputSource>
    var inputStateTable: map<string, SourceState>
    /** Everything performed since the actions were last released. */
    ghost var performed: seq<Action>

    ghost predicate Valid()
      reads this
    {
      && AllWellTyped(performed)
      && TableHolds(inputStateTable, performed)
      && forall k | 0 <= k < |performed| :: Registered(activeInputSources, performed[k])
    }

    constructor ()
      ensures Valid() && performed == [] && activeInputSources == map[]
    {
      activeInputSources, inputStateTable, performed := map[], map[], [];
    }

    /** An existing source keeps its type. */
    method GetOrCreateInputSource(id: string, kind: Kind, pointerType: Option<PointerType>) returns (source: InputSource)
      modifies this`activeInputSources
      ensures id in activeInputSources && source == activeInputSources[id]
      ensures activeInputSources == if id in old(activeInputSources) then old(activeInputSources)
                                    else old(activeInputSources)[id := InputSource(kind, pointerType)]
    {
      if id !in activeInputSources {
        activeInputSources := activeInputSources[id := InputSource(kind, pointerType)];
      }
      source := activeInputSources[id];
    }

    method ProcessInputActionSequence(s: Sequence) returns (actions: Option<seq<Action>>)
      requires Valid()
      modifies this`activeInputSources
      ensures Valid()
      ensures activeInputSources == SourcesAfter(s, old(activeInputSources))
      ensures actions.Some? <==> Accepts(s, old(activeInputSources))
      ensures actions.Some? ==> IsParsed(s, actions.value, activeInputSources)
    {
      if s.NotASequence? {
        return None;
      }
      var kind := KindOf(s.typ);
      if kind == None || s.id == None {
        return None;
      }
      var pointerType := None;
      if kind.value == PointerKind {
        if s.pointerType.Invalid? {
          return None;
        }
        pointerType := Some(if s.pointerType.Given? then s.pointerType.value else Mouse);
      }
      assert pointerType == PointerTypeOf(s);
      StaysValid(activeInputSources, performed, s);
      var source := GetOrCreateInputSource(s.id.value, kind.value, pointerType);
      if source.kind != kind.value {
        return None;
      }
      if source.kind == PointerKind && source.pointerType != pointerType {
        return None;
      }
      if s.items == None {
        return None;
      }
      var parsed: seq<Action> := [];
      for i := 0 to |s.items.value|
        invariant |parsed| == i
        invariant forall k | 0 <= k < i :: ItemAction(s, k) == Some(parsed[k])
      {
        var action := ProcessItem(kind.value, s.id.value, pointerType, s.items.value[i]);
        assert action == ItemAction(s, i);
        if action == None {
          return None;
        }
        parsed := parsed + [action.value];
      }
      forall k | 0 <= k < |parsed|
        ensures WellTyped(parsed[k]) && parsed[k].id == s.id.value && Registered(activeInputSources, parsed[k])
      {
        ParsedIsWellTyped(kind.value, s.id.value, pointerType, s.items.value[k]);
      }
      return Some(parsed);
    }

    /** The service's part: parse every sequence, then transpose. The first sequence that is
        not accepted refuses the request; sources registered until then stay registered. */
    method CollectTicks(sequences: seq<Sequence>) returns (ticks: Option<seq<seq<Action>>>, ghost rows: seq<seq<Action>>)
      requires Valid()
      modifies this`activeInputSources
      ensures Valid() && StopsAt(sequences, old(activeInputSources), |rows|)
      ensures ticks.Some? <==> |rows| == |sequences|
      ensures ticks.Some? <==> AcceptsFirst(sequences, old(activeInputSources), |sequences|)
      ensures activeInputSources
           == SourcesAfterFirst(sequences, old(activeInputSources), if ticks.Some? then |rows| else |rows| + 1)
      ensures ticks.Some? ==>
                && AreTicksOf(ticks.value, rows)
                && forall i | 0 <= i < |rows| :: IsParsed(sequences[i], rows[i], activeInputSources)
    {
      hide AreTicksOf, IsParsed, Accepts, Valid, AcceptsFirst, SourcesAfterFirst;
      var actionsByTick: seq<seq<Action>> := [];
      rows := [];
      ghost var sources := activeInputSources;
      NoTicks<Action>();
      NoneYet(sequences, sources);
      for i := 0 to |sequences|
        invariant Valid() && |rows| == i
        invariant activeInputSources == SourcesAfterFirst(sequences, sources, i)
        invariant AcceptsFirst(sequences, sources, i)
        invariant AreTicksOf(actionsByTick, rows)
        invariant forall k | 0 <= k < i :: IsParsed(sequences[k], rows[k], activeInputSources)
      {
        ghost var before := activeInputSources;
        OneSequenceMore(sequences, sources, i);
        var actions := ProcessInputActionSequence(sequences[i]);
        if actions == None {
          return None, rows;
        }
        StaysParsed(sequences, rows, before, sequences[i]);
        actionsByTick := AppendRow(actionsByTick, actions.value, rows);
        rows := rows + [actions.value];
      }
      return Some(actionsByTick), rows;
    }

    /** One state object for each action, from the updated state of its source; nothing if an
        action lacks a coordinate. */
    method EmitSteps(ticks: seq<seq<Action>>) returns (steps: Option<seq<seq<StepState>>>)
      requires Valid() && forall t | 0 <= t < |ticks| :: Performable(ticks[t], activeInputSources)
      modifies this`inputStateTable, this`performed
      ensures Valid() && (steps.Some? <==> AllPositioned(ticks))
      ensures steps.Some? ==> performed == old(performed) + Flatten(ticks)
      ensures steps.Some? ==> AreStepsOf(steps.value, ticks, old(performed))
    {
      hide Valid, IsStepOf, AreFirstSteps, Performable, Positioned, WellTyped, HasCoordinates, AllWellTyped;
      var done: seq<seq<StepState>> := [];
      assert AreFirstSteps(done, ticks, performed) by {
        NoSteps(ticks, performed);
      }
      for t := 0 to |ticks|
        invariant Valid() && performed == old(performed) + Flatten(ticks[..t])
        invariant |done| == t && forall u | 0 <= u < t :: Positioned(ticks[u])
        invariant AreFirstSteps(done, ticks, old(performed))
      {
        FlattenStep(ticks, t);
        var step := EmitTick(ticks[t]);
        if step == None {
          return None;
        }
        OneStepMore(done, step.value, ticks, old(performed));
        done := done + [step.value];
        assert performed == old(performed) + Flatten(ticks[..t + 1]);
      }
      assert ticks[..|ticks|] == ticks;
      return Some(done);
    }

    method EmitTick(tick: seq<Action>) returns (states: Option<seq<StepState>>)
      requires Valid() && Performable(tick, activeInputSources)
      modifies this`inputStateTable, this`performed
      ensures Valid() && (states.Some? <==> Positioned(tick))
      ensures states.Some? ==> performed == old(performed) + tick && IsStepOf(states.value, tick, old(performed))
    {
      hide Valid, IsStateOf, StateAfter, Emit, Registered, TableHolds, WellTyped, HasCoordinates;
      var done: seq<StepState> := [];
      for k := 0 to |tick|
        invariant Valid() && performed == old(performed) + tick[..k]
        invariant forall i | 0 <= i < k :: HasCoordinates(tick[i])
        invariant |done| == k && forall i | 0 <= i < k :: IsStateOf(done[i], tick, i, old(performed))
      {
        var state := EmitAction(tick[k]);
        if state == None {
          return None;
        }
        done := done + [state.value];
        assert performed == old(performed) + tick[..k + 1];
        StateIsOf(state.value, tick, k, old(performed), performed);
      }
      assert tick[..|tick|] == tick;
      return Some(done);
    }

    method EmitAction(action: Action) returns (state: Option<StepState>)
      requires Valid() && WellTyped(action) && Registered(activeInputSources, action)
      modifies this`inputStateTable, this`performed
      ensures Valid() && (state.Some? <==> HasCoordinates(action))
      ensures state.Some? ==> performed == old(performed) + [action] && AllWellTyped(performed)
                              && state.value == Emit(action, StateAfter(performed, action.id))
    {
      hide After, Emit, StateAfter, TableHolds, Registered, HasCoordinates;
      if !HasCoordinates(action) {
        return None;
      }
      var currentState := if action.id in inputStateTable then inputStateTable[action.id] else RELEASED;
      TableStep(inputStateTable, performed, action);
      currentState := After(currentState, action);
      inputStateTable := inputStateTable[action.id := currentState];
      performed := performed + [action];
      state := Some(Emit(action, currentState));
    }

    /** The sources of all actions. A hash set yields them in some order, here that in which
        they first act. */
    method CollectSources(ticks: seq<seq<Action>>) returns (entries: seq<SourceEntry>)
      requires forall t | 0 <= t < |ticks| :: Performable(ticks[t], activeInputSources)
      ensures ListsSources(entries, Flatten(ticks), activeInputSources)
    {
      hide ListsSources, Performable;
      entries := [];
      NoSources(activeInputSources);
      for t := 0 to |ticks|
        invariant ListsSources(entries, Flatten(ticks[..t]), activeInputSources)
      {
        FlattenStep(ticks, t);
        entries := CollectTickSources(ticks[t], entries, Flatten(ticks[..t]));
      }
      assert ticks[..|ticks|] == ticks;
    }

    method CollectTickSources(tick: seq<Action>, before: seq<SourceEntry>, ghost h: seq<Action>)
      returns (entries: seq<SourceEntry>)
      requires Performable(tick, activeInputSources) && ListsSources(before, h, activeInputSources)
      ensures ListsSources(entries, h + tick, activeInputSources)
    {
      hide ListsSources, WellTyped, AutomationSourceType;
      entries := before;
      assert h + tick[..0] == h;
      for k := 0 to |tick|
        invariant ListsSources(entries, h + tick[..k], activeInputSources)
      {
        assert Registered(activeInputSources, tick[k]);
        ghost var was := entries;
        var listed := FindSource(entries, tick[k].id);
        if !listed {
          entries := entries + [SourceEntry(tick[k].id, AutomationSourceType(activeInputSources[tick[k].id]))];
        }
        OneActionMore(was, entries, h + tick[..k], tick[k], activeInputSources);
        assert h + tick[..k] + [tick[k]] == h + tick[..k + 1];
      }
      assert tick[..|tick|] == tick;
    }

    method FindSource(entries: seq<SourceEntry>, id: string) returns (listed: bool)
      ensures listed <==> IsListed(entries, id)
    {
      for i := 0 to |entries|
        invariant forall j | 0 <= j < i :: entries[j].sourceId != id
      {
        if entries[i].sourceId == id {
          return true;
        }
      }
      return false;
    }

    /** The session's part: the guard, the prompts, and then the steps in one request. */
    method PerformActions(ticks: seq<seq<Action>>, session: WebDriverSession.Session) returns (p: Performance)
      requires Valid() && session.Valid() && forall t | 0 <= t < |ticks| :: Performable(ticks[t], activeInputSources)
      modifies this`inputStateTable, this`performed, session
      ensures Valid() && session.Valid() && session.Now().contexts == old(session.Now()).contexts
      ensures IsPerformance(p, ticks, activeInputSources, old(performed), performed, old(session.Now()), session.Now(),
                            session.behavior, session.backend)
      ensures p.Refused? || p.Nothing? ==> inputStateTable == old(inputStateTable)
    {
      hide Valid, AreStepsOf, Performable, AllPositioned, Contexts.HandleUserPrompts;
      ghost var was := session.Now();
      Contexts.AdmittedKeepsContexts(was, PERFORM, session.behavior, session.backend);
      if session.currentBrowsingContext == None {
        return Refused(Contexts.NoSuchWindow);
      }
      var error := session.HandleUserPrompts();
      if error.Some? {
        return Refused(error.value);
      }
      var actionsCount := 0;
      for t := 0 to |ticks|
        invariant 0 <= actionsCount
        invariant actionsCount == 0 <==> forall u | 0 <= u < t :: ticks[u] == []
      {
        assert ticks[t] == [] <==> |ticks[t]| == 0;
        actionsCount := actionsCount + |ticks[t]|;
      }
      if actionsCount == 0 {
        return Nothing;
      }
      var steps := EmitSteps(ticks);
      if steps == None {
        return Crashed;
      }
      var inputSources := CollectSources(ticks);
      var reply := session.SendCommandToBackend(
        Contexts.Ask, session.toplevelBrowsingContext.value, session.currentBrowsingContext);
      p := Sent(steps.value, inputSources, Contexts.FailureOf(reply));
    }

    /** The whole command: a request that is not accepted performs nothing; otherwise the
        transposed sequences are performed, each step with the state of its source. */
    method Perform(sequences: Option<seq<Sequence>>, session: WebDriverSession.Session)
      returns (p: Performance, ghost rows: seq<seq<Action>>, ghost ticks: seq<seq<Action>>)
      requires Valid() && session.Valid()
      modifies this, session
      ensures Valid() && session.Valid() && session.Now().contexts == old(session.Now()).contexts
      ensures sequences.Some? ==> StopsAt(sequences.value, old(activeInputSources), |rows|)
      ensures IsAccepted(sequences, old(activeInputSources)) ==>
                && |rows| == |sequences.value| && AreTicksOf(ticks, rows)
                && (forall i | 0 <= i < |rows| :: IsParsed(sequences.value[i], rows[i], activeInputSources))
                && IsPerformance(p, ticks, activeInputSources, old(performed), performed, old(session.Now()),
                                 session.Now(), session.behavior, session.backend)
                && AnswersRequest(p, sequences.value)
                && (p.Sent? ==>
                      && performed == old(performed) + Flatten(ticks)
                      && |p.steps| == |ticks| && ShowsAllPressed(p.steps, ticks, old(performed)))
      ensures !IsAccepted(sequences, old(activeInputSources)) ==>
                && p == Refused(Contexts.InvalidArgument)
                && session.Now() == old(session.Now()) && performed == old(performed)
      ensures p.Refused? || p.Nothing? ==> inputStateTable == old(inputStateTable)
      ensures activeInputSources == SourcesAfterRequest(sequences, old(activeInputSources), |rows|)
    {
      hide AreTicksOf, IsParsed, Performable, IsPerformance, AcceptsFirst, SourcesAfterFirst, AnswersRequest,
           ShowsAllPressed;
      ticks, rows := [], [];
      if sequences == None {
        return Refused(Contexts.InvalidArgument), rows, ticks;
      }
      var collected;
      collected, rows := CollectTicks(sequences.value);
      if collected == None {
        return Refused(Contexts.InvalidArgument), rows, ticks;
      }
      ticks := collected.value;
      forall i | 0 <= i < |rows|
        ensures Performable(rows[i], activeInputSources)
      {
        ParsedIsPerformable(sequences.value[i], rows[i], activeInputSources);
      }
      TicksArePerformable(ticks, rows, activeInputSources);
      p := PerformActions(collected.value, session);
      PerformanceAnswers(p, sequences.value, rows, ticks, activeInputSources, old(performed), performed,
                         old(session.Now()), session.Now(), session.behavior, session.backend);
    }

    /** Forgets both the sources and their states, unless the window is gone. */
    method ReleaseActions(session: WebDriverSession.Session) returns (error: Option<Contexts.Error>)
      requires Valid() && session.Valid()
      modifies this, session
      ensures Valid() && session.Valid() && session.Now().contexts == old(session.Now()).contexts
      ensures old(session.Now()).contexts.top == None ==>
                && error == Some(Contexts.NoSuchWindow) && session.Now() == old(session.Now())
                && performed == old(performed) && activeInputSources == old(activeInputSources)
                && inputStateTable == old(inputStateTable)
      ensures old(session.Now()).contexts.top.Some? ==>
                && performed == [] && activeInputSources == map[] && inputStateTable == map[]
                && session.Now() == Contexts.Tell(old(session.Now()), Contexts.Ask, session.toplevelBrowsingContext.value, None)
                && error == Contexts.FailureOf(session.backend.reply(session.sent))
    {
      if session.toplevelBrowsingContext == None {
        return Some(Contexts.NoSuchWindow);
      }
      activeInputSources, inputStateTable, performed := map[], map[], [];
      var reply := session.SendCommandToBackend(Contexts.Ask, session.toplevelBrowsingContext.value, None);
      error := Contexts.FailureOf(reply);
    }
  }

  lemma {:induction false} NoSources(sources: map<string, InputSource>)
    ensures ListsSources([], [], sources)
  {
  }

  /** One more action, by a source that is listed already or is added. */
  lemma {:induction false} OneActionMore(was: seq<SourceEntry>, now: seq<SourceEntry>, h: seq<Action>, a: Action,
                                         sources: map<string, InputSource>)
    requires ListsSources(was, h, sources) && a.id in sources
    requires now == if IsListed(was, a.id) then was else was + [SourceEntry(a.id, AutomationSourceType(sources[a.id]))]
    ensures ListsSources(now, h + [a], sources)
  {
    hide AutomationSourceType, Acts, IsListed;
    forall i | 0 <= i < |now|
      ensures IsEntryOf(now[i], h + [a], sources)
    {
      if i < |was| {
        ActsStill(h, a, was[i].sourceId);
      } else {
        ActsNow(h, a);
      }
    }
    forall k | 0 <= k < |h + [a]|
      ensures IsListed(now, (h + [a])[k].id)
    {
      if k < |h| {
        ListedStill(was, now, h[k].id);
      } else {
        ListedNow(was, now, a.id);
      }
    }
    if !IsListed(was, a.id) {
      NotListed(was, a.id);
    }
  }

  lemma {:induction false} ActsStill(h: seq<Action>, a: Action, id: string)
    requires Acts(h, id)
    ensures Acts(h + [a], id)
  {
    var k :| 0 <= k < |h| && h[k].id == id;
    assert (h + [a])[k].id == id;
  }

  lemma {:induction false} ActsNow(h: seq<Action>, a: Action)
    ensures Acts(h + [a], a.id)
  {
    assert (h + [a])[|h|].id == a.id;
  }

  lemma {:induction false} ListedStill(was: seq<SourceEntry>, now: seq<SourceEntry>, id: string)
    requires was <= now && IsListed(was, id)
    ensures IsListed(now, id)
  {
    var i :| 0 <= i < |was| && was[i].sourceId == id;
    assert now[i].sourceId == id;
  }

  lemma {:induction false} ListedNow(was: seq<SourceEntry>, now: seq<SourceEntry>, id: string)
    requires if IsListed(was, id) then now == was else |now| > |was| && now[|was|].sourceId == id
    ensures IsListed(now, id)
  {
  }

  lemma {:induction false} NotListed(entries: seq<SourceEntry>, id: string)
    requires !IsListed(entries, id)
    ensures forall i | 0 <= i < |entries| :: entries[i].sourceId != id
  {
  }

  /** A move without coordinates gets through the parser, and performing it crashes. */
  lemma {:induction false} MoveWithoutCoordinates(duration: Field<nat>, origin: Field<Origin>, pointerType: PointerType)
    requires Acceptable(duration) && Acceptable(origin)
    ensures var s := Sequence("pointer", Some("p"), Given(pointerType), Some([
                       Item("pointerMove", duration, Absent, Absent, origin, Absent, Absent, Absent, Absent)]));
            && Accepts(s, map[])
            && ItemAction(s, 0).Some? && !HasCoordinates(ItemAction(s, 0).value)
            && !AllPositioned([[ItemAction(s, 0).value]])
  {
    var s := Sequence("pointer", Some("p"), Given(pointerType), Some([
               Item("pointerMove", duration, Absent, Absent, origin, Absent, Absent, Absent, Absent)]));
    var a := ItemAction(s, 0);
    assert a.Some? && !HasCoordinates(a.value);
    assert !Positioned([[a.value]][0]) by {
      assert !HasCoordinates([a.value][0]);
    }
  }

  /** What performing `ticks` came to, in a session that was `was` and is now `now`, with the
      history `h` before and `h2` after. */
  ghost predicate IsPerformance(p: Performance, ticks: seq<seq<Action>>, sources: map<string, InputSource>,
                                h: seq<Action>, h2: seq<Action>,
                                was: Contexts.View, now: Contexts.View,
                                behavior: Contexts.PromptBehavior, b: Contexts.Backend)
  {
    var admitted := Contexts.Admit(was, PERFORM, behavior, b);
    && admitted.Done?
    && (if admitted.error.Some? then
          p == Refused(admitted.error.value) && now == admitted.view && h2 == h
        else if forall t | 0 <= t < |ticks| :: ticks[t] == [] then
          p == Nothing && now == admitted.view && h2 == h
        else if !AllPositioned(ticks) then
          p == Crashed && now == admitted.view
        else
          && was.contexts.top.Some?
          && now == Contexts.Tell(admitted.view, Contexts.Ask, was.contexts.top.value, was.contexts.current)
          && p.Sent? && p.answer == Contexts.FailureOf(b.reply(now.sent))
          && h2 == h + Flatten(ticks) && AreStepsOf(p.steps, ticks, h) && ListsSources(p.sources, Flatten(ticks), sources))
  }

  /** The request has the form it must have, and each sequence agrees with the sources that
      those before it leave. */
  ghost predicate IsAccepted(sequences: Option<seq<Sequence>>, sources: map<string, InputSource>) {
    sequences.Some? && AcceptsFirst(sequences.value, sources, |sequences.value|)
  }

  /** Sources are registered by the accepted sequences and by the one that is refused. */
  function SourcesAfterRequest(sequences: Option<seq<Sequence>>, sources: map<string, InputSource>, accepted: nat)
    : map<string, InputSource>
    requires sequences.Some? ==> accepted <= |sequences.value|
  {
    if sequences == None then sources
    else
      SourcesAfterFirst(sequences.value, sources, if accepted < |sequences.value| then accepted + 1 else accepted)
  }

  // ----- Which sources a request registers

  /** The members that are looked at before the source is registered. */
  predicate HasSource(s: Sequence) {
    && s.Sequence? && KindOf(s.typ).Some? && s.id.Some?
    && (KindOf(s.typ) == Some(PointerKind) ==> !s.pointerType.Invalid?)
  }

  function SourcesAfter(s: Sequence, sources: map<string, InputSource>): map<string, InputSource> {
    if HasSource(s) && s.id.value !in sources
    then sources[s.id.value := InputSource(KindOf(s.typ).value, PointerTypeOf(s))]
    else sources
  }

  function SourcesAfterFirst(sequences: seq<Sequence>, sources: map<string, InputSource>, n: nat): map<string, InputSource>
    requires n <= |sequences|
  {
    if n == 0 then sources else SourcesAfter(sequences[n - 1], SourcesAfterFirst(sequences, sources, n - 1))
  }

  ghost predicate Accepts(s: Sequence, sources: map<string, InputSource>) {
    IsWellFormed(s) && Agrees(s, sources)
  }

  ghost predicate AcceptsFirst(sequences: seq<Sequence>, sources: map<string, InputSource>, n: nat)
    requires n <= |sequences|
  {
    forall i {:trigger sequences[i]} | 0 <= i < n :: Accepts(sequences[i], SourcesAfterFirst(sequences, sources, i))
  }

  /** The first sequence that is not accepted is number `n`, if there is one. */
  ghost predicate StopsAt(sequences: seq<Sequence>, sources: map<string, InputSource>, n: nat) {
    && n <= |sequences| && AcceptsFirst(sequences, sources, n)
    && (n < |sequences| ==> !AcceptsFirst(sequences, sources, n + 1))
  }

  /** Accepted or not, the first `n` sequences of a request change the sources exactly when
      one of them gets as far as naming a source that is not registered. */
  lemma {:induction false} RegistersIff(sequences: seq<Sequence>, sources: map<string, InputSource>, n: nat)
    requires n <= |sequences|
    ensures SourcesAfterFirst(sequences, sources, n) != sources
       <==> exists i :: 0 <= i < n && HasSource(sequences[i]) && sequences[i].id.value !in sources
    ensures forall id | id in sources :: id in SourcesAfterFirst(sequences, sources, n)
                                          && SourcesAfterFirst(sequences, sources, n)[id] == sources[id]
    ensures forall i | 0 <= i < n && HasSource(sequences[i]) :: sequences[i].id.value in SourcesAfterFirst(sequences, sources, n)
  {
    if n > 0 {
      RegistersIff(sequences, sources, n - 1);
      var s := sequences[n - 1];
      if HasSource(s) && s.id.value !in sources {
        assert s.id.value in SourcesAfterFirst(sequences, sources, n);
      }
    }
  }

  /** A request without actions is refused, but its source stays registered as a keyboard, and
      a request that uses the identifier for a pointer is refused from then on. */
  lemma {:induction false} RefusedRequestRegisters()
    ensures var broken := [Sequence("key", Some("k"), Absent, None)];
            var pointer := [Sequence("pointer", Some("k"), Absent, Some([]))];
            && !AcceptsFirst(broken, map[], 1)
            && SourcesAfterFirst(broken, map[], 1) == map["k" := InputSource(KeyKind, None)]
            && AcceptsFirst(pointer, map[], 1)
            && !AcceptsFirst(pointer, map["k" := InputSource(KeyKind, None)], 1)
  {
    var keyboard := map["k" := InputSource(KeyKind, None)];
    OneSequence(Sequence("key", Some("k"), Absent, None), map[]);
    OneSequence(Sequence("pointer", Some("k"), Absent, Some([])), map[]);
    OneSequence(Sequence("pointer", Some("k"), Absent, Some([])), keyboard);
  }

  lemma {:induction false} OneSequence(s: Sequence, sources: map<string, InputSource>)
    ensures AcceptsFirst([s], sources, 1) <==> Accepts(s, sources)
    ensures SourcesAfterFirst([s], sources, 1) == SourcesAfter(s, sources)
  {
    assert SourcesAfterFirst([s], sources, 0) == sources && [s][0] == s;
  }

  lemma {:induction false} NoneYet(sequences: seq<Sequence>, sources: map<string, InputSource>)
    ensures AcceptsFirst(sequences, sources, 0) && SourcesAfterFirst(sequences, sources, 0) == sources
  {
  }

  lemma {:induction false} OneSequenceMore(sequences: seq<Sequence>, sources: map<string, InputSource>, n: nat)
    requires n < |sequences|
    ensures SourcesAfterFirst(sequences, sources, n + 1) == SourcesAfter(sequences[n], SourcesAfterFirst(sequences, sources, n))
    ensures AcceptsFirst(sequences, sources, n + 1)
       <==> AcceptsFirst(sequences, sources, n) && Accepts(sequences[n], SourcesAfterFirst(sequences, sources, n))
    ensures AcceptsFirst(sequences, sources, |sequences|) ==> AcceptsFirst(sequences, sources, n + 1)
  {
  }

  lemma {:induction false} StaysValid(before: map<string, InputSource>, h: seq<Action>, s: Sequence)
    requires forall k | 0 <= k < |h| :: Registered(before, h[k])
    ensures forall k | 0 <= k < |h| :: Registered(SourcesAfter(s, before), h[k])
  {
  }

  lemma {:induction false} StaysParsed(sequences: seq<Sequence>, rows: seq<seq<Action>>, before: map<string, InputSource>,
                                       s: Sequence)
    requires |rows| <= |sequences| && forall k | 0 <= k < |rows| :: IsParsed(sequences[k], rows[k], before)
    ensures forall k | 0 <= k < |rows| :: IsParsed(sequences[k], rows[k], SourcesAfter(s, before))
  {
    forall k | 0 <= k < |rows|
      ensures IsParsed(sequences[k], rows[k], SourcesAfter(s, before))
    {
      assert IsParsed(sequences[k], rows[k], before);
    }
  }

  /** The table holds the state of every source that has performed anything. */
  ghost predicate TableHolds(table: map<string, SourceState>, h: seq<Action>)
    requires AllWellTyped(h)
  {
    && (forall id | id in table :: table[id] == StateAfter(h, id))
    && (forall k | 0 <= k < |h| :: h[k].id in table)
  }

  /** The source of `a` is registered with its type. */
  ghost predicate Registered(sources: map<string, InputSource>, a: Action) {
    && a.id in sources && sources[a.id].kind == a.kind
    && (a.kind == PointerKind ==> sources[a.id].pointerType == a.pointerType)
  }

  /** The pointer type a pointer sequence asks for. */
  function PointerTypeOf(s: Sequence): Option<PointerType>
    requires s.Sequence?
  {
    if KindOf(s.typ) != Some(PointerKind) then None
    else Some(if s.pointerType.Given? then s.pointerType.value else Mouse)
  }

  /** The action that item k of a sequence stands for. */
  function ItemAction(s: Sequence, k: nat): Option<Action>
    requires s.Sequence? && KindOf(s.typ).Some? && s.id.Some? && s.items.Some? && k < |s.items.value|
  {
    ProcessItem(KindOf(s.typ).value, s.id.value, PointerTypeOf(s), s.items.value[k])
  }

  /** Every part of the sequence has the right form. */
  ghost predicate IsWellFormed(s: Sequence) {
    && s.Sequence? && KindOf(s.typ).Some? && s.id.Some? && s.items.Some?
    && (KindOf(s.typ) == Some(PointerKind) ==> !s.pointerType.Invalid?)
    && forall k | 0 <= k < |s.items.value| :: ItemAction(s, k).Some?
  }

  /** The sequence's source is new, or was registered with the type that it has now. */
  ghost predicate Agrees(s: Sequence, sources: map<string, InputSource>)
    requires IsWellFormed(s)
  {
    s.id.value in sources ==>
      && sources[s.id.value].kind == KindOf(s.typ).value
      && (KindOf(s.typ) == Some(PointerKind) ==> sources[s.id.value].pointerType == PointerTypeOf(s))
  }

  ghost predicate IsParsed(s: Sequence, actions: seq<Action>, sources: map<string, InputSource>) {
    && s.Sequence? && KindOf(s.typ).Some? && s.id.Some? && s.items.Some? && |actions| == |s.items.value|
    && forall k | 0 <= k < |actions| ::
         ItemAction(s, k) == Some(actions[k]) &&
         WellTyped(actions[k]) && actions[k].id == s.id.value && Registered(sources, actions[k])
  }

  lemma {:induction false} ParsedIsPerformable(s: Sequence, row: seq<Action>, sources: map<string, InputSource>)
    requires IsParsed(s, row, sources)
    ensures Performable(row, sources)
  {
  }

  ghost function Ids(sequences: seq<Sequence>): (ids: seq<string>)
    requires forall i | 0 <= i < |sequences| :: sequences[i].Sequence? && sequences[i].id.Some?
    ensures |ids| == |sequences| && forall i | 0 <= i < |ids| :: ids[i] == sequences[i].id.value
  {
    seq(|sequences|, i requires 0 <= i < |sequences| => sequences[i].id.value)
  }

  /** Of every accepted request, each source performs its own sequences, transposed. */
  lemma {:induction false} RequestRecovered(sequences: seq<Sequence>, rows: seq<seq<Action>>, ticks: seq<seq<Action>>,
                                            sources: map<string, InputSource>, id: string)
    requires |rows| == |sequences| && AreTicksOf(ticks, rows)
    requires forall i | 0 <= i < |sequences| ::
               sequences[i].Sequence? && sequences[i].id.Some? && IsParsed(sequences[i], rows[i], sources)
    ensures var own := OwnRows(rows, Ids(sequences), id);
            Only(Flatten(ticks), SourceOf, id) == Interleaved(own, Height(own))
  {
    SourceRecovered(ticks, rows, Ids(sequences), SourceOf, id);
  }

  /** A tick holds nothing but actions of the sequences. */
  lemma {:induction false} TickIsPerformable(rows: seq<seq<Action>>, t: nat, sources: map<string, InputSource>)
    requires forall i | 0 <= i < |rows| :: Performable(rows[i], sources)
    ensures Performable(TickOf(rows, t), sources)
  {
    hide WellTyped, HasCoordinates, Registered;
    if rows != [] {
      TickIsPerformable(rows[..|rows| - 1], t, sources);
    }
  }

  lemma {:induction false} TicksArePerformable(ticks: seq<seq<Action>>, rows: seq<seq<Action>>,
                                               sources: map<string, InputSource>)
    requires AreTicksOf(ticks, rows) && forall i | 0 <= i < |rows| :: Performable(rows[i], sources)
    ensures forall t | 0 <= t < |ticks| :: Performable(ticks[t], sources)
  {
    forall t | 0 <= t < |ticks|
      ensures Performable(ticks[t], sources)
    {
      TickIsPerformable(rows, t, sources);
    }
  }

  /** Updating one entry keeps the table in step with the history; a missing entry
      stands for a source that has nothing pressed. */
  lemma {:induction false} TableStep(table: map<string, SourceState>, h: seq<Action>, a: Action)
    requires AllWellTyped(h) && WellTyped(a) && TableHolds(table, h)
    ensures var current := if a.id in table then table[a.id] else RELEASED;
            && After(current, a) == StateAfter(h + [a], a.id)
            && TableHolds(table[a.id := After(current, a)], h + [a])
  {
    hide After, StateAfter;
    if a.id !in table {
      NoneOfSource(h, a.id);
      UnseenIsReleased(h, a.id);
    }
    forall id
      ensures StateAfter(h + [a], id) == if a.id == id then After(StateAfter(h, id), a) else StateAfter(h, id)
    {
      StateStep(h, a, id);
    }
  }

  lemma {:induction false} UnseenIsReleased(h: seq<Action>, id: string)
    requires AllWellTyped(h) && Only(h, SourceOf, id) == []
    ensures StateAfter(h, id) == RELEASED
  {
  }

  lemma {:induction false} NoneOfSource(h: seq<Action>, id: string)
    requires forall k | 0 <= k < |h| :: h[k].id != id
    ensures Only(h, SourceOf, id) == []
  {
    if h != [] {
      NoneOfSource(h[..|h| - 1], id);
    }
  }

  // ----- What a request shows

  predicate IsMove(item: Item)
    requires item.Item?
  {
    !item.duration.Invalid? && !item.origin.Invalid? && !item.x.Invalid? && !item.y.Invalid?
  }

  /** The items that a sequence of type `typ` may have. */
  predicate IsItem(typ: string, item: Item) {
    && item.Item?
    && (|| (item.typ == "pause" && !item.duration.Invalid?)
        || (typ == "key" && (item.typ == "keyDown" || item.typ == "keyUp") && item.value.Given? && item.value.value != [])
        || (typ == "pointer" && (item.typ == "pointerDown" || item.typ == "pointerUp") && item.button.Given?)
        || (typ == "pointer" && item.typ == "pointerCancel")
        || (typ == "pointer" && item.typ == "pointerMove" && IsMove(item))
        || (typ == "wheel" && item.typ == "scroll" && IsMove(item) && !item.deltaX.Invalid? && !item.deltaY.Invalid?))
  }

  predicate IsSequence(s: Sequence) {
    && s.Sequence? && s.typ in {"none", "key", "pointer", "wheel"} && s.id.Some? && s.items.Some?
    && (s.typ == "pointer" ==> !s.pointerType.Invalid?)
    && forall k | 0 <= k < |s.items.value| :: IsItem(s.typ, s.items.value[k])
  }

  /** The coordinates that an item needs to be performed. */
  predicate IsPlaced(item: Item) {
    item.Item? ==>
      && (item.typ == "pointerMove" || item.typ == "scroll" ==> item.x.Given? && item.y.Given?)
      && (item.typ == "scroll" ==> item.deltaX.Given? && item.deltaY.Given?)
  }

  predicate Shown<T(==)>(f: Field<T>, shown: Option<T>) {
    if f.Given? then shown == Some(f.value) else shown == None
  }

  /** What a state shows of the item that it was sent for, right after that item. */
  predicate Shows(s: Sequence, item: Item, state: StepState) {
    && s.Sequence? && item.Item?
    && s.id == Some(state.sourceId)
    && (s.typ == "key" ==> ShowsKey(item, state))
    && (s.typ != "key" ==> state.pressedCharKey == None && state.pressedVirtualKeys == {})
    && (s.typ == "pointer" ==> ShowsButton(item, state))
    && (s.typ != "pointer" ==> state.pressedButton == None)
    && ShowsMove(item, state)
  }

  predicate ShowsKey(item: Item, state: StepState)
    requires item.Item?
  {
    item.typ == "keyDown" || item.typ == "keyUp" ==>
      && item.value.Given? && item.value.value != []
      && match VirtualKeyForKey(item.value.value[0])
         case Some(key) => key.name in state.pressedVirtualKeys <==> item.typ == "keyDown"
         case None => state.pressedCharKey == if item.typ == "keyDown" then Some(item.value.value) else None
  }

  predicate ShowsButton(item: Item, state: StepState)
    requires item.Item?
  {
    && (item.typ == "pointerUp" || item.typ == "pointerCancel" ==> state.pressedButton == None)
    && (item.typ == "pointerDown" ==>
          && item.button.Given?
          && state.pressedButton == Some(match item.button.value
                                         case 0 => Left
                                         case 1 => Middle
                                         case 2 => Right
                                         case _ => NoButton))
  }

  predicate ShowsMove(item: Item, state: StepState)
    requires item.Item?
  {
    var moves := item.typ == "pointerMove" || item.typ == "scroll";
    && (if moves || item.typ == "pause" then Shown(item.duration, state.duration) else state.duration == None)
    && (if moves then
          && item.x.Given? && item.y.Given? && state.location == Some((item.x.value, item.y.value))
          && state.origin == Some(if item.origin.Given? then item.origin.value else Viewport)
        else state.location == None && state.origin == None)
    && (if item.typ == "scroll" then
          item.deltaX.Given? && item.deltaY.Given? && state.delta == Some((item.deltaX.value, item.deltaY.value))
        else state.delta == None)
  }

  /** What a state shows as pressed, read off all that its source has done since the release. */
  ghost predicate ShowsPressed(state: StepState, own: seq<Action>) {
    && own != []
    && var kind := own[|own| - 1].kind;
    && (forall b :: state.pressedButton == Some(b) <==> kind == PointerKind && StillDown(own, Presses(b), MovesButton))
    && (forall name :: name in state.pressedVirtualKeys
                  <==> kind == KeyKind && StillDown(own, StrikesVirtual(KeyDown, name), StrikesVirtual(KeyUp, name)))
    && (forall key :: state.pressedCharKey == Some(key)
                 <==> kind == KeyKind && StillDown(own, StrikesCharKey(key), MovesCharKey))
  }

  lemma {:induction false} ItemIsExact(s: Sequence, k: nat)
    requires s.Sequence? && KindOf(s.typ).Some? && s.id.Some? && s.items.Some? && k < |s.items.value|
    ensures ItemAction(s, k).Some? <==> IsItem(s.typ, s.items.value[k])
  {
  }

  /** A sequence is well-formed exactly when its type, its members and its items are. */
  lemma {:induction false} SequenceIsExact(s: Sequence)
    ensures IsWellFormed(s) <==> IsSequence(s)
  {
    hide IsItem, ItemAction;
    if s.Sequence? && KindOf(s.typ).Some? && s.id.Some? && s.items.Some? {
      forall k | 0 <= k < |s.items.value|
        ensures ItemAction(s, k).Some? <==> IsItem(s.typ, s.items.value[k])
      {
        ItemIsExact(s, k);
      }
    }
  }

  lemma {:induction false} ItemIsPlaced(s: Sequence, k: nat)
    requires s.Sequence? && KindOf(s.typ).Some? && s.id.Some? && s.items.Some? && k < |s.items.value|
    ensures ItemAction(s, k).Some? ==> (HasCoordinates(ItemAction(s, k).value) <==> IsPlaced(s.items.value[k]))
  {
  }

  /** Whatever the source had pressed before, the state sent for an item shows that item. */
  lemma {:induction false} ItemIsShown(s: Sequence, k: nat, st: SourceState)
    requires s.Sequence? && KindOf(s.typ).Some? && s.id.Some? && s.items.Some? && k < |s.items.value|
    ensures var a := ItemAction(s, k);
            a.Some? && WellTyped(a.value) && HasCoordinates(a.value) ==>
              Shows(s, s.items.value[k], Emit(a.value, After(st, a.value)))
  {
    hide VirtualKeyForKey;
  }

  /** A state shows what its source has pressed, whatever other sources did in between. */
  lemma {:induction false} PressedIsShown(state: StepState, tick: seq<Action>, r: nat, h: seq<Action>)
    requires r < |tick|
    ensures IsStateOf(state, tick, r, h) ==> ShowsPressed(state, Only(h + tick[..r + 1], SourceOf, tick[r].id))
  {
    hide StillDown, Fold;
    if IsStateOf(state, tick, r, h) {
      var all, id := h + tick[..r + 1], tick[r].id;
      var own := Only(all, SourceOf, id);
      OnlyIsWellTyped(all, id);
      assert all[|all| - 1] == tick[r] && own[|own| - 1] == tick[r];
      forall b
        ensures Fold(own).pressedButton == Some(b) <==> StillDown(own, Presses(b), MovesButton)
      {
        PressedButtonMeans(own, b);
      }
      forall name
        ensures name in Fold(own).pressedVirtualKeys
           <==> StillDown(own, StrikesVirtual(KeyDown, name), StrikesVirtual(KeyUp, name))
      {
        VirtualKeyMeans(own, name);
      }
      forall key
        ensures Fold(own).pressedKey == Some(key) <==> StillDown(own, StrikesCharKey(key), MovesCharKey)
      {
        CharKeyMeans(own, key);
      }
    }
  }

  lemma {:induction false} StateIsShown(state: StepState, tick: seq<Action>, r: nat, h: seq<Action>, s: Sequence, k: nat)
    requires s.Sequence? && KindOf(s.typ).Some? && s.id.Some? && s.items.Some? && k < |s.items.value| && r < |tick|
    ensures IsStateOf(state, tick, r, h) && ItemAction(s, k) == Some(tick[r]) ==> Shows(s, s.items.value[k], state)
  {
    hide Shows, Emit, After, ItemAction, StateAfter;
    if IsStateOf(state, tick, r, h) && ItemAction(s, k) == Some(tick[r]) {
      var before := h + tick[..r];
      assert before + [tick[r]] == h + tick[..r + 1];
      assert forall j | 0 <= j < |before| :: before[j] == (h + tick[..r + 1])[j];
      StateStep(before, tick[r], tick[r].id);
      ItemIsShown(s, k, StateAfter(before, tick[r].id));
    }
  }

  predicate HasItem(s: Sequence, k: nat) {
    s.Sequence? && s.items.Some? && k < |s.items.value|
  }

  /** Where item k of sequence i is performed in step k: after those of the earlier sequences
      that are long enough. */
  function Place(sequences: seq<Sequence>, i: nat, k: nat): nat
    requires i <= |sequences|
  {
    if i == 0 then 0 else Place(sequences, i - 1, k) + if HasItem(sequences[i - 1], k) then 1 else 0
  }

  /** There is one state for each item of the request, at its place, and it shows that item. */
  ghost predicate ShowsRequest(sequences: seq<Sequence>, steps: seq<seq<StepState>>) {
    HasPlaces(sequences, steps) && forall i | 0 <= i < |sequences| :: ShowsSequence(sequences, i, steps)
  }

  ghost predicate HasPlaces(sequences: seq<Sequence>, steps: seq<seq<StepState>>) {
    forall k | 0 <= k < |steps| :: 0 < |steps[k]| == Place(sequences, |sequences|, k)
  }

  ghost predicate ShowsSequence(sequences: seq<Sequence>, i: nat, steps: seq<seq<StepState>>)
    requires i < |sequences|
  {
    forall k: nat | HasItem(sequences[i], k) ::
      && k < |steps| && Place(sequences, i, k) < |steps[k]|
      && Shows(sequences[i], sequences[i].items.value[k], steps[k][Place(sequences, i, k)])
  }

  /** Each state shows what its source has pressed since the release. */
  ghost predicate ShowsAllPressed(steps: seq<seq<StepState>>, ticks: seq<seq<Action>>, h: seq<Action>)
    requires |steps| == |ticks|
  {
    forall t | 0 <= t < |steps| :: |steps[t]| == |ticks[t]| && StepShowsPressed(steps[t], ticks[t], h + Flatten(ticks[..t]))
  }

  ghost predicate StepShowsPressed(step: seq<StepState>, tick: seq<Action>, h: seq<Action>)
    requires |step| == |tick|
  {
    forall r | 0 <= r < |step| :: ShowsPressed(step[r], Only(h + tick[..r + 1], SourceOf, tick[r].id))
  }

  lemma {:induction false} AllPressedIsShown(steps: seq<seq<StepState>>, ticks: seq<seq<Action>>, h: seq<Action>)
    ensures AreStepsOf(steps, ticks, h) ==> ShowsAllPressed(steps, ticks, h)
  {
    hide ShowsPressed, IsStateOf;
    if AreStepsOf(steps, ticks, h) {
      forall t | 0 <= t < |steps|
        ensures |steps[t]| == |ticks[t]| && StepShowsPressed(steps[t], ticks[t], h + Flatten(ticks[..t]))
      {
        forall r | 0 <= r < |steps[t]|
          ensures ShowsPressed(steps[t][r], Only(h + Flatten(ticks[..t]) + ticks[t][..r + 1], SourceOf, ticks[t][r].id))
        {
          PressedIsShown(steps[t][r], ticks[t], r, h + Flatten(ticks[..t]));
        }
      }
    }
  }

  ghost predicate AllParsed(sequences: seq<Sequence>, rows: seq<seq<Action>>, sources: map<string, InputSource>) {
    |rows| == |sequences| && forall i | 0 <= i < |rows| :: IsParsed(sequences[i], rows[i], sources)
  }

  lemma {:induction false} PlaceIsRank(sequences: seq<Sequence>, rows: seq<seq<Action>>, sources: map<string, InputSource>,
                                       i: nat, k: nat)
    requires i <= |sequences|
    ensures AllParsed(sequences, rows, sources) ==> Place(sequences, i, k) == Rank(rows, i, k)
  {
    if AllParsed(sequences, rows, sources) && i > 0 {
      hide ItemAction, WellTyped, Registered;
      PlaceIsRank(sequences, rows, sources, i - 1, k);
      assert rows[..i][..i - 1] == rows[..i - 1];
      assert IsParsed(sequences[i - 1], rows[i - 1], sources);
    }
  }

  lemma {:induction false} ItemAtItsPlace(sequences: seq<Sequence>, rows: seq<seq<Action>>, sources: map<string, InputSource>,
                                          steps: seq<seq<StepState>>, ticks: seq<seq<Action>>, h: seq<Action>, i: nat, k: nat)
    requires AllParsed(sequences, rows, sources) && AreTicksOf(ticks, rows) && AreStepsOf(steps, ticks, h)
    requires i < |sequences| && HasItem(sequences[i], k)
    ensures k < |steps| && Place(sequences, i, k) < |steps[k]|
    ensures Shows(sequences[i], sequences[i].items.value[k], steps[k][Place(sequences, i, k)])
  {
    hide Shows, IsStateOf, Rank, TickOf, ItemAction, WellTyped, Registered;
    assert IsParsed(sequences[i], rows[i], sources);
    var r := Rank(rows, i, k);
    EveryActionHasItsPlace(rows, i, k);
    PlaceIsRank(sequences, rows, sources, i, k);
    assert IsStepOf(steps[k], ticks[k], h + Flatten(ticks[..k]));
    StateIsShown(steps[k][r], ticks[k], r, h + Flatten(ticks[..k]), sequences[i], k);
  }

  lemma {:induction false} StepIsAsLong(sequences: seq<Sequence>, rows: seq<seq<Action>>, sources: map<string, InputSource>, k: nat)
    requires AllParsed(sequences, rows, sources) && k < Height(rows)
    ensures 0 < |TickOf(rows, k)| == Place(sequences, |sequences|, k)
  {
    hide TickOf, Height, Place, IsParsed;
    PlaceIsRank(sequences, rows, sources, |sequences|, k);
    NoTickIsEmpty(rows, k);
    assert rows[..|rows|] == rows;
  }

  lemma {:induction false} StepsAreAsLong(sequences: seq<Sequence>, rows: seq<seq<Action>>, sources: map<string, InputSource>,
                                          steps: seq<seq<StepState>>, ticks: seq<seq<Action>>, h: seq<Action>)
    requires AllParsed(sequences, rows, sources) && AreTicksOf(ticks, rows)
    ensures AreStepsOf(steps, ticks, h) ==> HasPlaces(sequences, steps)
  {
    hide AllParsed, IsStateOf, TickOf, Height, Place;
    if AreStepsOf(steps, ticks, h) {
      forall k | 0 <= k < |steps|
        ensures 0 < |steps[k]| == Place(sequences, |sequences|, k)
      {
        StepIsAsLong(sequences, rows, sources, k);
        assert IsStepOf(steps[k], ticks[k], h + Flatten(ticks[..k]));
      }
    }
  }

  /** The steps of an accepted request show it, item by item. */
  lemma {:induction false} RequestIsShown(sequences: seq<Sequence>, rows: seq<seq<Action>>, sources: map<string, InputSource>,
                                          steps: seq<seq<StepState>>, ticks: seq<seq<Action>>, h: seq<Action>)
    requires AllParsed(sequences, rows, sources) && AreTicksOf(ticks, rows)
    ensures AreStepsOf(steps, ticks, h) ==> ShowsRequest(sequences, steps)
  {
    hide Shows, AllParsed, AreStepsOf, AreTicksOf, HasPlaces, Place;
    if AreStepsOf(steps, ticks, h) {
      StepsAreAsLong(sequences, rows, sources, steps, ticks, h);
      forall i | 0 <= i < |sequences|
        ensures ShowsSequence(sequences, i, steps)
      {
        forall k: nat | HasItem(sequences[i], k)
          ensures && k < |steps| && Place(sequences, i, k) < |steps[k]|
                  && Shows(sequences[i], sequences[i].items.value[k], steps[k][Place(sequences, i, k)])
        {
          ItemAtItsPlace(sequences, rows, sources, steps, ticks, h, i, k);
        }
      }
    }
  }

  /** Every item of the request has the coordinates it needs. */
  ghost predicate AllPlaced(sequences: seq<Sequence>) {
    forall i, k | 0 <= i < |sequences| && 0 <= k && HasItem(sequences[i], k) :: IsPlaced(sequences[i].items.value[k])
  }

  /** The request itself says whether performing it crashes. */
  lemma {:induction false} PlacedIsExact(sequences: seq<Sequence>, rows: seq<seq<Action>>, sources: map<string, InputSource>,
                                         ticks: seq<seq<Action>>)
    requires AllParsed(sequences, rows, sources) && AreTicksOf(ticks, rows)
    ensures AllPositioned(ticks) <==> AllPlaced(sequences)
  {
    hide IsPlaced, HasCoordinates, TickOf, Rank, Height, IsParsed;
    if AllPlaced(sequences) {
      forall t | 0 <= t < |ticks|
        ensures Positioned(ticks[t])
      {
        forall r | 0 <= r < |ticks[t]|
          ensures HasCoordinates(ticks[t][r])
        {
          var i := OnlyActionsHavePlaces(rows, t, r);
          EveryActionHasItsPlace(rows, i, t);
          RowItemIsPlaced(sequences[i], rows[i], sources, t);
        }
      }
    }
    if AllPositioned(ticks) {
      forall i, k | 0 <= i < |sequences| && 0 <= k && HasItem(sequences[i], k)
        ensures IsPlaced(sequences[i].items.value[k])
      {
        RowItemIsPlaced(sequences[i], rows[i], sources, k);
        EveryActionHasItsPlace(rows, i, k);
        assert Positioned(ticks[k]);
      }
    }
  }

  lemma {:induction false} RowItemIsPlaced(s: Sequence, row: seq<Action>, sources: map<string, InputSource>, k: nat)
    requires IsParsed(s, row, sources)
    ensures HasItem(s, k) <==> k < |row|
    ensures k < |row| ==> (HasCoordinates(row[k]) <==> IsPlaced(s.items.value[k]))
  {
    hide ItemAction, HasCoordinates, IsPlaced;
    if k < |row| {
      ItemIsPlaced(s, k);
    }
  }

  // ----- What a request says of its sources

  /** The type that the backend is told for the source of a sequence. */
  predicate SaysType(s: Sequence, t: SourceType)
    requires s.Sequence?
  {
    && (s.typ == "none" ==> t == Null)
    && (s.typ == "key" ==> t == Keyboard)
    && (s.typ == "wheel" ==> t == Wheel)
    && (s.typ == "pointer" ==>
          && (s.pointerType == Given(Touch) ==> t == TouchPointer)
          && (s.pointerType == Given(Pen) ==> t == PenPointer)
          && (s.pointerType == Given(Mouse) || s.pointerType == Absent ==> t == MousePointer))
  }

  /** The source of every sequence with an item is told once, with the type of that sequence,
      and no other source is. */
  ghost predicate SaysSources(sequences: seq<Sequence>, entries: seq<SourceEntry>) {
    && (forall i, j | 0 <= i < j < |entries| :: entries[i].sourceId != entries[j].sourceId)
    && (forall i | 0 <= i < |sequences| && HasItem(sequences[i], 0) ::
          sequences[i].id.Some? && IsListed(entries, sequences[i].id.value))
    && (forall i, e | 0 <= i < |sequences| && 0 <= e < |entries| && HasItem(sequences[i], 0)
                      && sequences[i].id == Some(entries[e].sourceId) :: SaysType(sequences[i], entries[e].sourceType))
    && (forall e | 0 <= e < |entries| :: IsNamed(sequences, entries[e].sourceId))
  }

  ghost predicate IsNamed(sequences: seq<Sequence>, id: string) {
    exists i :: 0 <= i < |sequences| && HasItem(sequences[i], 0) && sequences[i].id == Some(id)
  }

  lemma {:induction false} TypeIsSaid(s: Sequence, row: seq<Action>, sources: map<string, InputSource>)
    requires IsParsed(s, row, sources) && row != []
    ensures s.id.value in sources && SaysType(s, AutomationSourceType(sources[s.id.value]))
  {
    ParsedIsWellTyped(KindOf(s.typ).value, s.id.value, PointerTypeOf(s), s.items.value[0]);
    assert ItemAction(s, 0) == Some(row[0]);
  }

  lemma {:induction false} SequenceIsListed(sequences: seq<Sequence>, rows: seq<seq<Action>>, sources: map<string, InputSource>,
                                            ticks: seq<seq<Action>>, entries: seq<SourceEntry>, i: nat)
    requires AllParsed(sequences, rows, sources) && AreTicksOf(ticks, rows) && ListsSources(entries, Flatten(ticks), sources)
    requires i < |sequences| && HasItem(sequences[i], 0)
    ensures sequences[i].id.Some? && IsListed(entries, sequences[i].id.value)
    ensures i < |rows| && rows[i] != [] && IsParsed(sequences[i], rows[i], sources)
  {
    hide TickOf, Height, ItemAction, IsListed, IsEntryOf;
    assert IsParsed(sequences[i], rows[i], sources);
    EveryActionHasItsPlace(rows, i, 0);
    var k := IndexInFlatten(ticks, 0, Rank(rows, i, 0));
    assert IsListed(entries, Flatten(ticks)[k].id);
  }

  lemma {:induction false} ActorIsNamed(sequences: seq<Sequence>, rows: seq<seq<Action>>, sources: map<string, InputSource>,
                                        ticks: seq<seq<Action>>, id: string)
    requires AllParsed(sequences, rows, sources) && AreTicksOf(ticks, rows) && Acts(Flatten(ticks), id)
    ensures IsNamed(sequences, id)
  {
    hide TickOf, Height, ItemAction, Rank;
    var k :| 0 <= k < |Flatten(ticks)| && Flatten(ticks)[k].id == id;
    var t, r := TickOfIndex(ticks, k);
    var i := OnlyActionsHavePlaces(rows, t, r);
    EveryActionHasItsPlace(rows, i, t);
    assert IsParsed(sequences[i], rows[i], sources);
    assert HasItem(sequences[i], 0) && sequences[i].id == Some(id);
  }

  /** The sources that are told are those of the request. */
  lemma {:induction false} SourcesAreSaid(sequences: seq<Sequence>, rows: seq<seq<Action>>, sources: map<string, InputSource>,
                                          ticks: seq<seq<Action>>, entries: seq<SourceEntry>)
    requires AllParsed(sequences, rows, sources) && AreTicksOf(ticks, rows)
    ensures ListsSources(entries, Flatten(ticks), sources) ==> SaysSources(sequences, entries)
  {
    hide AllParsed, AreTicksOf, IsParsed, SaysType, IsListed, IsNamed, Acts, AutomationSourceType;
    if ListsSources(entries, Flatten(ticks), sources) {
      forall i | 0 <= i < |sequences| && HasItem(sequences[i], 0)
        ensures sequences[i].id.Some? && IsListed(entries, sequences[i].id.value)
      {
        SequenceIsListed(sequences, rows, sources, ticks, entries, i);
      }
      forall i, e | 0 <= i < |sequences| && 0 <= e < |entries| && HasItem(sequences[i], 0)
                    && sequences[i].id == Some(entries[e].sourceId)
        ensures SaysType(sequences[i], entries[e].sourceType)
      {
        SequenceIsListed(sequences, rows, sources, ticks, entries, i);
        TypeIsSaid(sequences[i], rows[i], sources);
        assert IsEntryOf(entries[e], Flatten(ticks), sources);
      }
      forall e | 0 <= e < |entries|
        ensures IsNamed(sequences, entries[e].sourceId)
      {
        assert IsEntryOf(entries[e], Flatten(ticks), sources);
        ActorIsNamed(sequences, rows, sources, ticks, entries[e].sourceId);
      }
    }
  }

  // ----- The whole request

  /** What performing an accepted request comes to, read off the request itself: a crash
      exactly when an item lacks a coordinate, otherwise its items and its sources. */
  ghost predicate AnswersRequest(p: Performance, sequences: seq<Sequence>) {
    && (p.Crashed? ==> !AllPlaced(sequences))
    && (p.Sent? ==> p.steps != [] && AllPlaced(sequences) && ShowsRequest(sequences, p.steps) && SaysSources(sequences, p.sources))
    && (p.Nothing? ==> forall i | 0 <= i < |sequences| :: !HasItem(sequences[i], 0))
  }

  lemma {:induction false} PerformanceAnswers(p: Performance, sequences: seq<Sequence>, rows: seq<seq<Action>>,
                                              ticks: seq<seq<Action>>, sources: map<string, InputSource>,
                                              h: seq<Action>, h2: seq<Action>, was: Contexts.View, now: Contexts.View,
                                              behavior: Contexts.PromptBehavior, b: Contexts.Backend)
    requires AllParsed(sequences, rows, sources) && AreTicksOf(ticks, rows)
    requires IsPerformance(p, ticks, sources, h, h2, was, now, behavior, b)
    ensures AnswersRequest(p, sequences)
    ensures p.Sent? ==> h2 == h + Flatten(ticks) && |p.steps| == |ticks| && ShowsAllPressed(p.steps, ticks, h)
  {
    hide AllParsed, AreTicksOf, AreStepsOf, ListsSources, ShowsRequest, SaysSources, ShowsAllPressed, AllPositioned, AllPlaced,
         Contexts.Admit;
    PlacedIsExact(sequences, rows, sources, ticks);
    if p.Sent? {
      RequestIsShown(sequences, rows, sources, p.steps, ticks, h);
      SourcesAreSaid(sequences, rows, sources, ticks, p.sources);
      AllPressedIsShown(p.steps, ticks, h);
      StepsAreAsMany(p.steps, ticks, h);
    } else if p.Nothing? {
      forall i | 0 <= i < |sequences|
        ensures !HasItem(sequences[i], 0)
      {
        NothingInTicks(sequences, rows, sources, ticks, i);
      }
    }
  }

  lemma {:induction false} StepsAreAsMany(steps: seq<seq<StepState>>, ticks: seq<seq<Action>>, h: seq<Action>)
    ensures AreStepsOf(steps, ticks, h) ==> |steps| == |ticks|
  {
  }

  lemma {:induction false} NothingInTicks(sequences: seq<Sequence>, rows: seq<seq<Action>>, sources: map<string, InputSource>,
                                          ticks: seq<seq<Action>>, i: nat)
    requires AllParsed(sequences, rows, sources) && AreTicksOf(ticks, rows) && i < |sequences|
    ensures (forall t | 0 <= t < |ticks| :: ticks[t] == []) ==> !HasItem(sequences[i], 0)
  {
    hide TickOf, Height, ItemAction;
    assert IsParsed(sequences[i], rows[i], sources);
    if HasItem(sequences[i], 0) {
      EveryActionHasItsPlace(rows, i, 0);
      assert ticks[0] != [];
    }
  }
}
