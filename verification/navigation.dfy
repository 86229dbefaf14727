/** `From<KeyEvent> for NavigationAction` in src/app/navigation.rs: the key
    bindings, as a total function of the key code and the modifier bits. */
module Navigation {
  import opened Wrappers

  /** crossterm's `KeyCode`, with the variants the bindings never mention
      folded into `OtherKey`. */
  datatype KeyCode =
    | Backspace | Enter | Left | Right | Up | Down | Home | End | PageUp | PageDown
    | Tab | BackTab | Delete | Insert | Esc | F(n: nat) | Char(c: char) | OtherKey

  /** `KeyModifiers::bits()`. */
  type Modifiers = bv8

  const NONE: Modifiers := 0
  const SHIFT: Modifiers := 0x01
  const CONTROL: Modifiers := 0x02
  const ALT: Modifiers := 0x04

  datatype NavigationAction =
    | Select | Back | Home | End | PageUp | PageDown
    | NextSelection | PreviousSelection | ExternalEditor | Invalid

  /** The action a key press means. Unmodified navigation keys map to their
      action, CONTROL+g and CONTROL+e to Back and ExternalEditor, everything
      else to Invalid. */
  function FromKey(code: KeyCode, mods: Modifiers): (a: NavigationAction)
    ensures a == Select <==> code == KeyCode.Enter && mods == NONE
    ensures a == NavigationAction.Home <==> code == KeyCode.Home && mods == NONE
    ensures a == NavigationAction.End <==> code == KeyCode.End && mods == NONE
    ensures a == NavigationAction.PageUp <==> code == KeyCode.PageUp && mods == NONE
    ensures a == NavigationAction.PageDown <==> code == KeyCode.PageDown && mods == NONE
    ensures a == PreviousSelection <==> code == KeyCode.Up && mods == NONE
    ensures a == NextSelection <==> code == KeyCode.Down && mods == NONE
    ensures a == Back <==> code == Char('g') && mods == CONTROL
    ensures a == ExternalEditor <==> code == Char('e') && mods == CONTROL
  {
    match (code, mods)
    case (Enter, 0) => Select
    case (Home, 0) => NavigationAction.Home
    case (End, 0) => NavigationAction.End
    case (PageUp, 0) => NavigationAction.PageUp
    case (PageDown, 0) => NavigationAction.PageDown
    case (Up, 0) => PreviousSelection
    case (Down, 0) => NextSelection
    case (keycode, modifiers) =>
      if modifiers == CONTROL then
        match keycode
        case Char('g') => Back
        case Char('e') => ExternalEditor
        case _ => Invalid
      else Invalid
  }

  /** The key press bound to each action; Invalid has none. */
  function Binding(a: NavigationAction): Option<(KeyCode, Modifiers)>
  {
    match a
    case Select => Some((KeyCode.Enter, NONE))
    case Home => Some((KeyCode.Home, NONE))
    case End => Some((KeyCode.End, NONE))
    case PageUp => Some((KeyCode.PageUp, NONE))
    case PageDown => Some((KeyCode.PageDown, NONE))
    case PreviousSelection => Some((KeyCode.Up, NONE))
    case NextSelection => Some((KeyCode.Down, NONE))
    case Back => Some((Char('g'), CONTROL))
    case ExternalEditor => Some((Char('e'), CONTROL))
    case Invalid => None
  }

  /** Each action other than Invalid is reached by exactly one key press:
      its binding maps back to it, and any key press that means it is its
      binding. */
  lemma BindingsRoundTrip(a: NavigationAction, code: KeyCode, mods: Modifiers)
    ensures Binding(a).None? <==> a == Invalid
    ensures Binding(a).Some? ==> FromKey(Binding(a).value.0, Binding(a).value.1) == a
    ensures FromKey(code, mods) == a && a != Invalid ==> Binding(a) == Some((code, mods))
  {
  }

  /** A key press means Invalid exactly when it is no binding. */
  lemma InvalidIsUnbound(code: KeyCode, mods: Modifiers)
    ensures FromKey(code, mods) == Invalid <==>
      forall a: NavigationAction :: Binding(a) != Some((code, mods))
  {
    if FromKey(code, mods) != Invalid {
      BindingsRoundTrip(FromKey(code, mods), code, mods);
    } else {
      forall a: NavigationAction
        ensures Binding(a) != Some((code, mods))
      {
        BindingsRoundTrip(a, code, mods);
      }
    }
  }

  /** Any extra modifier turns a navigation key or a CONTROL binding into
      Invalid: SHIFT+Down, CONTROL+Down, plain `g`, CONTROL+SHIFT+g. */
  lemma ModifiersMustMatchExactly()
    ensures FromKey(KeyCode.Down, SHIFT) == Invalid
    ensures FromKey(KeyCode.Down, CONTROL) == Invalid
    ensures FromKey(Char('g'), NONE) == Invalid
    ensures FromKey(Char('g'), CONTROL | SHIFT) == Invalid
    ensures FromKey(Char('x'), CONTROL) == Invalid
  {
  }
}
