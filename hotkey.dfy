/** The keyboard-shortcut modifier test of the content script. */
module Hotkey {

  /** The modifier flags of a `keydown` event */
  datatype KeyEvent = KeyEvent(ctrlKey: bool, metaKey: bool, shiftKey: bool, altKey: bool)

  /**
   * `checkModifier(e, modifier)`: "Ctrl+Shift" accepts Ctrl or Meta together with
   * Shift and without Alt; "Alt+Shift" accepts Alt with Shift and neither Ctrl nor
   * Meta; every other modifier name is rejected.
   */
  function CheckModifier(e: KeyEvent, modifier: string): (r: bool)
    ensures r ==> e.shiftKey
    ensures r ==> modifier == "Ctrl+Shift" || modifier == "Alt+Shift"
  {
    match modifier
    case "Ctrl+Shift" => (e.ctrlKey || e.metaKey) && e.shiftKey && !e.altKey
    case "Alt+Shift" => e.altKey && e.shiftKey && !e.ctrlKey && !e.metaKey
    case _ => false
  }

  /** No key press matches both supported shortcuts. */
  lemma ModifiersExclusive(e: KeyEvent)
    ensures !(CheckModifier(e, "Ctrl+Shift") && CheckModifier(e, "Alt+Shift"))
  {
  }
}
