/** Keys of the WebDriver protocol, and the sticky modifiers of Element Send Keys. */
module WebDriverKeys {
  import opened Wrappers

  /** Text is a string of UTF-16 code units. */
  type Unit = nat
  type Text = seq<Unit>

  datatype KeyModifier = NoModifier | Shift | Control | Alternate | Meta
  datatype VirtualKey = VirtualKey(name: string, modifier: KeyModifier)

  /** Section 17.4.2 of W3C WebDriver: the private-use units that stand for keys. */
  function VirtualKeyForKey(key: Unit): Option<VirtualKey> {
    match key
    case 0xE001 => Some(VirtualKey("Cancel", NoModifier))
    case 0xE002 => Some(VirtualKey("Help", NoModifier))
    case 0xE003 => Some(VirtualKey("Backspace", NoModifier))
    case 0xE004 => Some(VirtualKey("Tab", NoModifier))
    case 0xE005 => Some(VirtualKey("Clear", NoModifier))
    case 0xE006 => Some(VirtualKey("Return", NoModifier))
    case 0xE007 => Some(VirtualKey("Enter", NoModifier))
    case 0xE008 => Some(VirtualKey("Shift", Shift))
    case 0xE050 => Some(VirtualKey("ShiftRight", Shift))
    case 0xE009 => Some(VirtualKey("Control", Control))
    case 0xE051 => Some(VirtualKey("ControlRight", Control))
    case 0xE00A => Some(VirtualKey("Alternate", Alternate))
    case 0xE052 => Some(VirtualKey("AlternateRight", Alternate))
    case 0xE00B => Some(VirtualKey("Pause", NoModifier))
    case 0xE00C => Some(VirtualKey("Escape", NoModifier))
    case 0xE00D => Some(VirtualKey("Space", NoModifier))
    case 0xE00E => Some(VirtualKey("PageUp", NoModifier))
    case 0xE054 => Some(VirtualKey("PageUpRight", NoModifier))
    case 0xE00F => Some(VirtualKey("PageDown", NoModifier))
    case 0xE055 => Some(VirtualKey("PageDownRight", NoModifier))
    case 0xE010 => Some(VirtualKey("End", NoModifier))
    case 0xE056 => Some(VirtualKey("EndRight", NoModifier))
    case 0xE011 => Some(VirtualKey("Home", NoModifier))
    case 0xE057 => Some(VirtualKey("HomeRight", NoModifier))
    case 0xE012 => Some(VirtualKey("LeftArrow", NoModifier))
    case 0xE058 => Some(VirtualKey("LeftArrowRight", NoModifier))
    case 0xE013 => Some(VirtualKey("UpArrow", NoModifier))
    case 0xE059 => Some(VirtualKey("UpArrowRight", NoModifier))
    case 0xE014 => Some(VirtualKey("RightArrow", NoModifier))
    case 0xE05A => Some(VirtualKey("RightArrowRight", NoModifier))
    case 0xE015 => Some(VirtualKey("DownArrow", NoModifier))
    case 0xE05B => Some(VirtualKey("DownArrowRight", NoModifier))
    case 0xE016 => Some(VirtualKey("Insert", NoModifier))
    case 0xE05C => Some(VirtualKey("InsertRight", NoModifier))
    case 0xE017 => Some(VirtualKey("Delete", NoModifier))
    case 0xE05D => Some(VirtualKey("DeleteRight", NoModifier))
    case 0xE018 => Some(VirtualKey("Semicolon", NoModifier))
    case 0xE019 => Some(VirtualKey("Equals", NoModifier))
    case 0xE01A => Some(VirtualKey("NumberPad0", NoModifier))
    case 0xE01B => Some(VirtualKey("NumberPad1", NoModifier))
    case 0xE01C => Some(VirtualKey("NumberPad2", NoModifier))
    case 0xE01D => Some(VirtualKey("NumberPad3", NoModifier))
    case 0xE01E => Some(VirtualKey("NumberPad4", NoModifier))
    case 0xE01F => Some(VirtualKey("NumberPad5", NoModifier))
    case 0xE020 => Some(VirtualKey("NumberPad6", NoModifier))
    case 0xE021 => Some(VirtualKey("NumberPad7", NoModifier))
    case 0xE022 => Some(VirtualKey("NumberPad8", NoModifier))
    case 0xE023 => Some(VirtualKey("NumberPad9", NoModifier))
    case 0xE024 => Some(VirtualKey("NumberPadMultiply", NoModifier))
    case 0xE025 => Some(VirtualKey("NumberPadAdd", NoModifier))
    case 0xE026 => Some(VirtualKey("NumberPadSeparator", NoModifier))
    case 0xE027 => Some(VirtualKey("NumberPadSubtract", NoModifier))
    case 0xE028 => Some(VirtualKey("NumberPadDecimal", NoModifier))
    case 0xE029 => Some(VirtualKey("NumberPadDivide", NoModifier))
    case 0xE031 => Some(VirtualKey("Function1", NoModifier))
    case 0xE032 => Some(VirtualKey("Function2", NoModifier))
    case 0xE033 => Some(VirtualKey("Function3", NoModifier))
    case 0xE034 => Some(VirtualKey("Function4", NoModifier))
    case 0xE035 => Some(VirtualKey("Function5", NoModifier))
    case 0xE036 => Some(VirtualKey("Function6", NoModifier))
    case 0xE037 => Some(VirtualKey("Function7", NoModifier))
    case 0xE038 => Some(VirtualKey("Function8", NoModifier))
    case 0xE039 => Some(VirtualKey("Function9", NoModifier))
    case 0xE03A => Some(VirtualKey("Function10", NoModifier))
    case 0xE03B => Some(VirtualKey("Function11", NoModifier))
    case 0xE03C => Some(VirtualKey("Function12", NoModifier))
    case 0xE03D => Some(VirtualKey("Meta", Meta))
    case 0xE053 => Some(VirtualKey("MetaRight", Meta))
    case _ => None
  }

  // ----- Element Send Keys

  datatype InteractionType = KeyPress | KeyRelease | InsertByKey
  datatype Interaction = Interaction(kind: InteractionType, text: Option<Text>, key: Option<string>)

  /** The bit of a modifier in the sticky mask. */
  function Bit(m: KeyModifier): bv8 {
    match m
    case NoModifier => 0
    case Shift => 1
    case Control => 2
    case Alternate => 4
    case Meta => 8
  }

  predicate Sticks(mask: bv8, m: KeyModifier) {
    mask & Bit(m) != 0
  }

  /** The modifier that a key name presses or releases. */
  function ModifierOf(name: string): KeyModifier {
    if name == "Shift" || name == "ShiftRight" then Shift
    else if name == "Control" || name == "ControlRight" then Control
    else if name == "Alternate" || name == "AlternateRight" then Alternate
    else if name == "Meta" || name == "MetaRight" then Meta
    else NoModifier
  }

  /** Where the key of modifier `m` goes down and up, in order. */
  function Strokes(interactions: seq<Interaction>, m: KeyModifier): seq<InteractionType> {
    if interactions == [] then []
    else
      var last := interactions[|interactions| - 1];
      Strokes(interactions[..|interactions| - 1], m)
      + if last.key.Some? && ModifierOf(last.key.value) == m then [last.kind] else []
  }

  /** Down, up, down, up and so on. */
  predicate Alternates(strokes: seq<InteractionType>) {
    forall i | 0 <= i < |strokes| :: strokes[i] == if i % 2 == 0 then KeyPress else KeyRelease
  }

  /** What one unit of the text becomes, apart from whether a modifier goes down or up. */
  predicate Renders(unit: Unit, i: Interaction) {
    match VirtualKeyForKey(unit)
    case None => i == Interaction(InsertByKey, Some([unit]), None)
    case Some(VirtualKey(name, NoModifier)) => i == Interaction(InsertByKey, None, Some(name))
    case Some(VirtualKey(name, _)) => i.kind != InsertByKey && i.text == None && i.key == Some(name)
  }

  /** The table's names and modifiers agree. */
  predicate NameAgrees(unit: Unit) {
    match VirtualKeyForKey(unit)
    case Some(key) => ModifierOf(key.name) == key.modifier
    case None => true
  }

  lemma {:induction false} LowNamesAgree(unit: Unit)
    requires unit <= 0xE00D
    ensures NameAgrees(unit)
  {
  }

  lemma {:induction false} MiddleNamesAgree(unit: Unit)
    requires 0xE00E <= unit <= 0xE023
    ensures NameAgrees(unit)
  {
  }

  lemma {:induction false} HighNamesAgree(unit: Unit)
    requires 0xE024 <= unit
    ensures NameAgrees(unit)
  {
  }

  lemma {:induction false} NamesAgree(unit: Unit)
    ensures NameAgrees(unit)
  {
    hide NameAgrees;
    if unit <= 0xE00D {
      LowNamesAgree(unit);
    } else if unit <= 0xE023 {
      MiddleNamesAgree(unit);
    } else {
      HighNamesAgree(unit);
    }
  }

  lemma {:induction false} ToggleBit(mask: bv8, m: KeyModifier, n: KeyModifier)
    requires m != NoModifier && n != NoModifier
    ensures Sticks(mask ^ Bit(m), n) == if m == n then !Sticks(mask, n) else Sticks(mask, n)
  {
    match (m, n)
    case (Shift, Shift) =>
    case (Shift, _) =>
    case (Control, _) =>
    case (Alternate, _) =>
    case (Meta, _) =>
  }

  /** The interactions so far keep each modifier's strokes in step with the mask. */
  ghost predicate InStep(interactions: seq<Interaction>, mask: bv8) {
    forall m | m != NoModifier ::
      Alternates(Strokes(interactions, m)) && (Sticks(mask, m) <==> |Strokes(interactions, m)| % 2 == 1)
  }

  lemma {:induction false} AppendStrokes(interactions: seq<Interaction>, i: Interaction, m: KeyModifier)
    ensures Strokes(interactions + [i], m) ==
            Strokes(interactions, m) + if i.key.Some? && ModifierOf(i.key.value) == m then [i.kind] else []
  {
    assert (interactions + [i])[..|interactions|] == interactions;
  }

  /** A key that is no modifier moves nothing. */
  lemma {:induction false} PlainKeepsStep(interactions: seq<Interaction>, mask: bv8, i: Interaction)
    requires InStep(interactions, mask) && (i.key.Some? ==> ModifierOf(i.key.value) == NoModifier)
    ensures InStep(interactions + [i], mask)
  {
    hide ModifierOf;
    forall m | m != NoModifier
      ensures Strokes(interactions + [i], m) == Strokes(interactions, m)
    {
      AppendStrokes(interactions, i, m);
    }
  }

  /** A modifier key toggles its own bit and goes the way the new bit says. */
  lemma {:induction false} ToggleKeepsStep(interactions: seq<Interaction>, mask: bv8, i: Interaction, m: KeyModifier)
    requires InStep(interactions, mask) && m != NoModifier
    requires i.key.Some? && ModifierOf(i.key.value) == m
    requires i.kind == if Sticks(mask ^ Bit(m), m) then KeyPress else KeyRelease
    ensures InStep(interactions + [i], mask ^ Bit(m))
  {
    hide ModifierOf, Bit, Sticks;
    forall n | n != NoModifier
      ensures Alternates(Strokes(interactions + [i], n))
      ensures Sticks(mask ^ Bit(m), n) <==> |Strokes(interactions + [i], n)| % 2 == 1
    {
      AppendStrokes(interactions, i, n);
      ToggleBit(mask, m, n);
    }
  }

  /** The body of the loop over the text. */
  method RenderUnit(unit: Unit, stickyModifiers: bv8, ghost before: seq<Interaction>)
    returns (interaction: Interaction, mask: bv8)
    requires InStep(before, stickyModifiers)
    ensures Renders(unit, interaction) && InStep(before + [interaction], mask)
  {
    hide VirtualKeyForKey, ModifierOf, InStep, Bit, Sticks;
    NamesAgree(unit);
    interaction, mask := Interaction(InsertByKey, None, None), stickyModifiers;
    var virtualKey := VirtualKeyForKey(unit);
    if virtualKey == None {
      interaction := interaction.(text := Some([unit]));
      PlainKeepsStep(before, mask, interaction);
    } else {
      var modifier := virtualKey.value.modifier;
      interaction := interaction.(key := Some(virtualKey.value.name));
      if modifier != NoModifier {
        mask := mask ^ Bit(modifier);
        if Sticks(mask, modifier) {
          interaction := interaction.(kind := KeyPress);
        } else {
          interaction := interaction.(kind := KeyRelease);
        }
        ToggleKeepsStep(before, stickyModifiers, interaction, modifier);
      } else {
        PlainKeepsStep(before, mask, interaction);
      }
    }
  }

  /** The loop over the text: one interaction for each unit, in order. */
  method RenderText(text: Text) returns (interactions: seq<Interaction>, stickyModifiers: bv8)
    ensures |interactions| == |text| && forall k | 0 <= k < |text| :: Renders(text[k], interactions[k])
    ensures InStep(interactions, stickyModifiers)
  {
    interactions, stickyModifiers := [], 0;
    for i := 0 to |text|
      invariant |interactions| == i && forall k | 0 <= k < i :: Renders(text[k], interactions[k])
      invariant InStep(interactions, stickyModifiers)
    {
      hide Renders, InStep;
      var interaction;
      interaction, stickyModifiers := RenderUnit(text[i], stickyModifiers, interactions);
      interactions := interactions + [interaction];
    }
  }

  /** How many modifiers the text leaves down. */
  ghost function Stuck(rendered: seq<Interaction>): nat {
    |Strokes(rendered, Shift)| % 2 + |Strokes(rendered, Control)| % 2
    + |Strokes(rendered, Alternate)| % 2 + |Strokes(rendered, Meta)| % 2
  }

  function Releasing(interactions: seq<Interaction>, mask: bv8, m: KeyModifier, name: string): (r: seq<Interaction>)
    ensures |r| == |interactions| + if Sticks(mask, m) then 1 else 0
  {
    if Sticks(mask, m) then interactions + [Interaction(KeyRelease, None, Some(name))] else interactions
  }

  /** Releasing a modifier that sticks leaves it up and the others as they are. */
  lemma {:induction false} ReleasingKeepsStep(interactions: seq<Interaction>, mask: bv8, left: bv8,
                                              m: KeyModifier, name: string) returns (left': bv8)
    requires InStep(interactions, left) && m != NoModifier && ModifierOf(name) == m
    requires Sticks(left, m) == Sticks(mask, m)
    ensures InStep(Releasing(interactions, mask, m, name), left')
    ensures !Sticks(left', m) && forall n | n != m && n != NoModifier :: Sticks(left', n) == Sticks(left, n)
  {
    hide Bit, ModifierOf, Sticks, InStep;
    left' := left;
    if Sticks(mask, m) {
      left' := left ^ Bit(m);
      ToggleBit(left, m, m);
      ToggleKeepsStep(interactions, left, Interaction(KeyRelease, None, Some(name)), m);
      forall n | n != m && n != NoModifier
        ensures Sticks(left', n) == Sticks(left, n)
      {
        ToggleBit(left, m, n);
      }
    }
  }

  /** All four releases in the order of the source: everything is up afterwards. */
  lemma {:induction false} AllReleased(rendered: seq<Interaction>, mask: bv8)
    requires InStep(rendered, mask)
    ensures var all := Releasing(Releasing(Releasing(Releasing(rendered, mask, Shift, "Shift"),
                                                     mask, Control, "Control"),
                                           mask, Alternate, "Alternate"),
                                 mask, Meta, "Meta");
            && (forall m | m != NoModifier :: Alternates(Strokes(all, m)) && |Strokes(all, m)| % 2 == 0)
            && |all| == |rendered| + Stuck(rendered)
  {
    hide Bit, Sticks, InStep, Alternates, Strokes, Releasing, ModifierOf, Stuck;
    StuckSticks(rendered, mask);
    NamesOfModifiers();
    var left := ReleasingKeepsStep(rendered, mask, mask, Shift, "Shift");
    var a := Releasing(rendered, mask, Shift, "Shift");
    left := ReleasingKeepsStep(a, mask, left, Control, "Control");
    var b := Releasing(a, mask, Control, "Control");
    left := ReleasingKeepsStep(b, mask, left, Alternate, "Alternate");
    var c := Releasing(b, mask, Alternate, "Alternate");
    left := ReleasingKeepsStep(c, mask, left, Meta, "Meta");
    NothingSticks(Releasing(c, mask, Meta, "Meta"), left);
  }

  lemma {:induction false} NamesOfModifiers()
    ensures ModifierOf("Shift") == Shift && ModifierOf("Control") == Control
    ensures ModifierOf("Alternate") == Alternate && ModifierOf("Meta") == Meta
  {
  }

  /** The modifiers left down are those whose bit is set. */
  lemma {:induction false} StuckSticks(rendered: seq<Interaction>, mask: bv8)
    requires InStep(rendered, mask)
    ensures Stuck(rendered) == (if Sticks(mask, Shift) then 1 else 0) + (if Sticks(mask, Control) then 1 else 0)
                               + (if Sticks(mask, Alternate) then 1 else 0) + (if Sticks(mask, Meta) then 1 else 0)
  {
    hide Bit, Sticks, Strokes, Alternates;
  }

  lemma {:induction false} NothingSticks(interactions: seq<Interaction>, mask: bv8)
    requires InStep(interactions, mask) && forall m | m != NoModifier :: !Sticks(mask, m)
    ensures forall m | m != NoModifier ::
              Alternates(Strokes(interactions, m)) && |Strokes(interactions, m)| % 2 == 0
  {
    hide Bit, Sticks, Strokes, Alternates;
  }

  /** Every unit of the text yields one interaction, in order; each modifier goes down
      first, alternates, and ends up released; one release is added for every modifier
      that the text leaves down. */
  method SendKeys(text: Text) returns (interactions: seq<Interaction>)
    ensures |interactions| >= |text| && forall k | 0 <= k < |text| :: Renders(text[k], interactions[k])
    ensures forall k | |text| <= k < |interactions| :: interactions[k].kind == KeyRelease && interactions[k].text == None
    ensures forall m | m != NoModifier ::
              Alternates(Strokes(interactions, m)) && |Strokes(interactions, m)| % 2 == 0
    ensures |interactions| == |text| + Stuck(interactions[..|text|]) <= |text| + 4
  {
    hide Bit, Renders, InStep, Alternates, Strokes;
    var stickyModifiers;
    interactions, stickyModifiers := RenderText(text);
    ghost var rendered := interactions;
    AllReleased(rendered, stickyModifiers);
    if stickyModifiers != 0 {
      if Sticks(stickyModifiers, Shift) {
        interactions := interactions + [Interaction(KeyRelease, None, Some("Shift"))];
      }
      assert rendered <= interactions;
      if Sticks(stickyModifiers, Control) {
        interactions := interactions + [Interaction(KeyRelease, None, Some("Control"))];
      }
      assert rendered <= interactions;
      if Sticks(stickyModifiers, Alternate) {
        interactions := interactions + [Interaction(KeyRelease, None, Some("Alternate"))];
      }
      assert rendered <= interactions;
      if Sticks(stickyModifiers, Meta) {
        interactions := interactions + [Interaction(KeyRelease, None, Some("Meta"))];
      }
    }
    assert rendered <= interactions;
    assert interactions[..|text|] == rendered;
  }
}
