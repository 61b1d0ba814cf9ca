/**
 * The page elements the engine works on. The engine sees its target through three
 * operations (`clearElement`, `getCurrentValue`, `setCurrentValue`) that treat
 * `<input>`/`<textarea>` through `value`, content-editable elements through
 * `textContent`, and ignore every other element.
 */
module Elements {
  import opened Wrappers
  import opened Chars

  /** How the engine's read and write operations classify an element */
  datatype Kind = InputOrTextarea | ContentEditable | Other

  /** The target element with its text (`value` or `textContent`) */
  datatype Field = Field(kind: Kind, content: string)

  predicate Editable(f: Field) {
    f.kind != Other
  }

  /** `getCurrentValue()` */
  function Read(f: Field): (v: string)
    ensures !Editable(f) ==> v == ""
  {
    if f.kind == Other then "" else f.content
  }

  /** `setCurrentValue(v)` and `clearElement()` (with `v == ""`) */
  function Write(f: Field, v: string): (r: Field)
    ensures r.kind == f.kind
    ensures !Editable(f) ==> r == f
  {
    if f.kind == Other then f else f.(content := v)
  }

  /** `v.slice(0, -1)`: the string without its last character; empty stays empty. */
  function DropLast(v: string): (r: string)
    ensures |v| > 0 ==> |r| == |v| - 1 && v == r + [v[|v| - 1]]
    ensures |v| == 0 ==> r == ""
  {
    if |v| == 0 then v else v[..|v| - 1]
  }

  /** Writing then reading an editable element gives back what was written; other elements never change and always read as empty. */
  lemma ReadAfterWrite(f: Field, v: string)
    ensures Editable(f) ==> Read(Write(f, v)) == v && Write(f, v).kind == f.kind
    ensures !Editable(f) ==> Write(f, v) == f && Read(f) == ""
  {
  }

  /** Writing what was read changes nothing. */
  lemma WriteBack(f: Field)
    ensures Write(f, Read(f)) == f
  {
  }

  /**
   * The properties of a DOM element that decide whether it is typeable.
   * `typeProperty` is the element's `type` property, not its attribute: for an
   * `<input>` whose attribute is missing or unknown the browser already reports
   * "text" here. `None` stands for an element that has no `type` property.
   */
  datatype ElementInfo = ElementInfo(
    tagName: string,
    typeProperty: Option<string>,
    contentEditable: string,
    classList: seq<string>,
    role: Option<string>)

  /** The `input` types the content script accepts */
  const TEXT_INPUT_TYPES: seq<string> := ["text", "email", "password", "search", "url", "tel"]

  /** `isTypeableElement(element)`, with `None` for a null element */
  function IsTypeableElement(element: Option<ElementInfo>): (b: bool)
    ensures b ==> element.Some?
    ensures element.Some? && LowerString(element.value.tagName) == "textarea" ==> b
    ensures element.Some? && element.value.contentEditable == "true" ==> b
    ensures element.Some? && element.value.role == Some("textbox") ==> b
  {
    match element
    case None => false
    case Some(e) =>
      var tagName := LowerString(e.tagName);
      var typ := match e.typeProperty case None => None case Some(t) => Some(LowerString(t));
      if tagName == "textarea" then true
      else if tagName == "input" && (typ == None || typ == Some("") || typ.value in TEXT_INPUT_TYPES) then true
      else if e.contentEditable == "true" then true
      else "editor" in e.classList || "input" in e.classList || e.role == Some("textbox")
  }

  /** How `getCurrentValue`/`setCurrentValue` classify an element */
  function KindOf(e: ElementInfo): (k: Kind)
    ensures k == InputOrTextarea <==> LowerString(e.tagName) == "textarea" || LowerString(e.tagName) == "input"
    ensures k != Other && LowerString(e.tagName) != "input" ==> IsTypeableElement(Some(e))
  {
    var tagName := LowerString(e.tagName);
    if tagName == "textarea" || tagName == "input" then InputOrTextarea
    else if e.contentEditable == "true" then ContentEditable
    else Other
  }

  /** Every content-editable target and every `<textarea>` is typeable. */
  lemma WritableKindsAreTypeable(e: ElementInfo)
    ensures KindOf(e) == ContentEditable ==> IsTypeableElement(Some(e))
    ensures LowerString(e.tagName) == "textarea" ==> IsTypeableElement(Some(e)) && KindOf(e) == InputOrTextarea
  {
  }

  /** Tag names are compared without regard to case. */
  lemma UpperCaseTextarea()
    ensures IsTypeableElement(Some(ElementInfo("TEXTAREA", None, "inherit", [], None)))
  {
    assert LowerString("TEXTAREA") == "textarea";
  }

  /**
   * An element typeable only by its role or class (here a `<div role="textbox">`) is
   * accepted as a target but is of the kind the engine ignores, so typing into it
   * leaves it unchanged.
   */
  lemma TextboxRoleIsIgnored()
    ensures var e := ElementInfo("div", None, "inherit", [], Some("textbox"));
            IsTypeableElement(Some(e)) && KindOf(e) == Other
  {
    var e := ElementInfo("div", None, "inherit", [], Some("textbox"));
    assert LowerString("div") == "div";
  }

  /** A checkbox is not typeable although the engine would write its `value`. */
  lemma CheckboxIsNotTypeable()
    ensures var e := ElementInfo("input", Some("checkbox"), "inherit", [], None);
            !IsTypeableElement(Some(e)) && KindOf(e) == InputOrTextarea
  {
    assert LowerString("input") == "input";
    assert LowerString("checkbox") == "checkbox";
  }

  /** A null element is never typeable. */
  lemma NullIsNotTypeable()
    ensures !IsTypeableElement(None)
  {
  }
}
