/**
 * The UI components of src/core/components: one class whose base fields are
 * those of `Component` (tag, id, cssClass) and whose `variant` holds the
 * state a subclass adds. Each named constructor stands for one subclass
 * constructor with its default arguments; `ToHTML` dispatches to the markup
 * the subclass writes.
 */
module Components {
  import opened Wrappers
  import opened Markup
  import opened Decimal
  import ComponentMarkup
  import CheckboxMarkup
  import InputMarkup
  import TextAreaMarkup

  /** What a subclass adds to the base fields. */
  datatype Variant =
    | ButtonContent(caption: string)
    | LabelContent(text: string)
    | CheckboxState(checked: bool)
    | InputState(inputType: string, value: string, placeholder: string)
    | TextAreaState(value: string, rows: Int32, cols: Int32)

  class Component {
    var tag: string
    var id: string
    var cssClass: string
    var variant: Variant

    /** `Button(caption, id = "", cssClass = "")`: tag "button". */
    constructor Button(caption: string, id: string := "", cssClass: string := "")
      ensures tag == "button" && this.id == id && this.cssClass == cssClass
      ensures variant == ButtonContent(caption)
    {
      tag := "button";
      this.id := id;
      this.cssClass := cssClass;
      variant := ButtonContent(caption);
    }

    /** `Label(text, id = "", cssClass = "")`: tag "p". */
    constructor Label(text: string, id: string := "", cssClass: string := "")
      ensures tag == "p" && this.id == id && this.cssClass == cssClass
      ensures variant == LabelContent(text)
    {
      tag := "p";
      this.id := id;
      this.cssClass := cssClass;
      variant := LabelContent(text);
    }

    /** `Checkbox(id, checked = false, cssClass = "")`: tag "input". */
    constructor Checkbox(id: string, checked: bool := false, cssClass: string := "")
      ensures tag == "input" && this.id == id && this.cssClass == cssClass
      ensures variant == CheckboxState(checked)
    {
      tag := "input";
      this.id := id;
      this.cssClass := cssClass;
      variant := CheckboxState(checked);
    }

    /** `InputComponent(id, type = "text", placeholder = "", cssClass = "")`: the value starts empty. */
    constructor Input(id: string, inputType: string := "text", placeholder: string := "", cssClass: string := "")
      ensures tag == "input" && this.id == id && this.cssClass == cssClass
      ensures variant == InputState(inputType, "", placeholder)
    {
      tag := "input";
      this.id := id;
      this.cssClass := cssClass;
      variant := InputState(inputType, "", placeholder);
    }

    /** `TextAreaComponent(id, rows = 4, cols = 40, cssClass = "")`: the value starts empty. */
    constructor TextArea(id: string, rows: Int32 := 4, cols: Int32 := 40, cssClass: string := "")
      ensures tag == "textarea" && this.id == id && this.cssClass == cssClass
      ensures variant == TextAreaState("", rows, cols)
    {
      tag := "textarea";
      this.id := id;
      this.cssClass := cssClass;
      variant := TextAreaState("", rows, cols);
    }

    function GetId(): string
      reads this
    {
      id
    }

    function GetClass(): string
      reads this
    {
      cssClass
    }

    function GetTag(): string
      reads this
    {
      tag
    }

    /** `setId`: replaces the id and nothing else. */
    method SetId(newId: string)
      modifies this
      ensures id == newId && GetId() == newId
      ensures tag == old(tag) && cssClass == old(cssClass) && variant == old(variant)
    {
      id := newId;
    }

    /** `setClass`: replaces the class and nothing else. */
    method SetClass(newClass: string)
      modifies this
      ensures cssClass == newClass && GetClass() == newClass
      ensures tag == old(tag) && id == old(id) && variant == old(variant)
    {
      cssClass := newClass;
    }

    /**
     * `setTag`: replaces the tag with any string, without validation. The
     * checkbox, input and text area write fixed tag names, so their markup
     * does not change.
     */
    method SetTag(newTag: string)
      modifies this
      ensures tag == newTag && GetTag() == newTag
      ensures id == old(id) && cssClass == old(cssClass) && variant == old(variant)
      ensures !(variant.ButtonContent? || variant.LabelContent?) ==> ToHTML() == old(ToHTML())
    {
      tag := newTag;
    }

    /**
     * `getContentHTML`: the label of a button, the text of a label, nothing
     * for a checkbox or an input, and the current value of a text area.
     */
    function ContentHTML(): (r: string)
      reads this
      ensures variant.ButtonContent? ==> r == variant.caption
      ensures variant.LabelContent? ==> r == variant.text
      ensures variant.CheckboxState? || variant.InputState? ==> r == []
      ensures variant.TextAreaState? ==> r == GetValue()
    {
      match variant
      case ButtonContent(caption) => caption
      case LabelContent(text) => text
      case CheckboxState(_) => ""
      case InputState(_, _, _) => ""
      case TextAreaState(value, _, _) => value
    }

    /**
     * `toHTML`: the template for buttons and labels, whose markup opens with
     * the tag field and ends with the content and the closing tag; the
     * override for checkboxes and inputs, which write a self-closing `<input`
     * whatever the tag field holds; and the override for text areas, which
     * ends with the value and `</textarea>`.
     */
    function ToHTML(): (r: string)
      reads this
      ensures variant.ButtonContent? || variant.LabelContent? ==> Encloses(r, "<" + tag, ContentHTML(), "</" + tag + ">")
      ensures variant.CheckboxState? ==> "<input type=\"checkbox\"" <= r
      ensures variant.CheckboxState? && variant.checked ==> |r| >= 9 && r[|r| - 9..] == " checked>"
      ensures variant.CheckboxState? && !variant.checked ==> |r| >= 2 && r[|r| - 2..] == "\">"
      ensures variant.InputState? ==> "<input" + (" type=\"" + variant.inputType + "\"") <= r && r[|r| - 1] == '>'
      ensures variant.TextAreaState? ==> Encloses(r, "<textarea", ContentHTML(), "</textarea>")
    {
      match variant
      case ButtonContent(_) => ComponentMarkup.ToHTML(tag, id, cssClass, ContentHTML())
      case LabelContent(_) => ComponentMarkup.ToHTML(tag, id, cssClass, ContentHTML())
      case CheckboxState(checked) => CheckboxMarkup.ToHTML(id, cssClass, checked)
      case InputState(inputType, value, placeholder) => InputMarkup.ToHTML(inputType, id, cssClass, placeholder, value)
      case TextAreaState(value, rows, cols) => TextAreaMarkup.ToHTML(id, cssClass, rows as int, cols as int, value)
    }

    /** The element `ToHTML` writes, as a structure. */
    function View(): Node
      reads this
    {
      match variant
      case ButtonContent(_) => ComponentMarkup.View(tag, id, cssClass, ContentHTML())
      case LabelContent(_) => ComponentMarkup.View(tag, id, cssClass, ContentHTML())
      case CheckboxState(checked) => CheckboxMarkup.View(id, cssClass, checked)
      case InputState(inputType, value, placeholder) => InputMarkup.View(inputType, id, cssClass, placeholder, value)
      case TextAreaState(value, rows, cols) => TextAreaMarkup.View(id, cssClass, rows as int, cols as int, value)
    }

    /**
     * Nothing is escaped, so the markup reads back only when the written tag
     * is a name and no attribute value holds a double quote.
     */
    predicate Parsable()
      reads this
    {
      IsValue(id) && IsValue(cssClass) &&
      match variant
      case ButtonContent(_) => IsName(tag)
      case LabelContent(_) => IsName(tag)
      case CheckboxState(_) => true
      case InputState(inputType, value, placeholder) => IsValue(inputType) && IsValue(value) && IsValue(placeholder)
      case TextAreaState(_, _, _) => true
    }

    /** The markup reads back as exactly the element `View` describes. */
    lemma ToHTMLReadsBack()
      requires Parsable()
      ensures Parse(ToHTML()) == Some(View())
    {
      match variant
      case ButtonContent(_) =>
        ComponentMarkup.ToHTMLReadsBack(tag, id, cssClass, ContentHTML());
      case LabelContent(_) =>
        ComponentMarkup.ToHTMLReadsBack(tag, id, cssClass, ContentHTML());
      case CheckboxState(checked) =>
        CheckboxMarkup.ToHTMLReadsBack(id, cssClass, checked);
      case InputState(inputType, value, placeholder) =>
        InputMarkup.ToHTMLReadsBack(inputType, id, cssClass, placeholder, value);
      case TextAreaState(value, rows, cols) =>
        TextAreaMarkup.ToHTMLReadsBack(id, cssClass, rows as int, cols as int, value);
    }

    /**
     * Buttons and labels use the template: the opening tag with the optional
     * id and class, exactly the content, and a closing tag with the same tag.
     */
    lemma TemplateShape()
      requires variant.ButtonContent? || variant.LabelContent?
      ensures ToHTML() == OpenTag(tag, ComponentMarkup.BaseAttrs(id, cssClass)) + ContentHTML() + CloseTag(tag)
    {
      ComponentMarkup.ToHTMLIsSerialization(tag, id, cssClass, ContentHTML());
    }

    /** Checkboxes and inputs write a self-closing `input` element with no content. */
    lemma SelfClosing()
      requires variant.CheckboxState? || variant.InputState?
      ensures View().Void? && View().tag == "input"
      ensures ContentHTML() == [] && ToHTML() == Serialize(View())
      ensures ToHTML()[|ToHTML()| - 1] == '>'
    {
      match variant
      case CheckboxState(checked) =>
        CheckboxMarkup.ToHTMLIsSerialization(id, cssClass, checked);
      case InputState(inputType, value, placeholder) =>
        InputMarkup.ToHTMLIsSerialization(inputType, id, cssClass, placeholder, value);
    }

    /** `setLabel`: the content becomes the new label; the base fields stay. */
    method SetLabel(newLabel: string)
      requires variant.ButtonContent?
      modifies this
      ensures variant == ButtonContent(newLabel) && ContentHTML() == newLabel
      ensures tag == old(tag) && id == old(id) && cssClass == old(cssClass)
    {
      variant := ButtonContent(newLabel);
    }

    /** `setText`: the content becomes the new text; the base fields stay. */
    method SetText(newText: string)
      requires variant.LabelContent?
      modifies this
      ensures variant == LabelContent(newText) && ContentHTML() == newText
      ensures tag == old(tag) && id == old(id) && cssClass == old(cssClass)
    {
      variant := LabelContent(newText);
    }

    /** `isChecked`. */
    function IsChecked(): bool
      requires variant.CheckboxState?
      reads this
    {
      variant.checked
    }

    /**
     * `setChecked`: `isChecked` then answers the new state, and the markup
     * carries ` checked` exactly when it is set.
     */
    method SetChecked(c: bool)
      requires variant.CheckboxState?
      modifies this
      ensures variant == CheckboxState(c) && IsChecked() == c
      ensures tag == old(tag) && id == old(id) && cssClass == old(cssClass)
      ensures ToHTML() == CheckboxMarkup.ToHTML(id, cssClass, c)
      ensures HasBare(View().attrs, "checked") <==> c
    {
      variant := CheckboxState(c);
      CheckboxMarkup.CheckedPresent(id, cssClass, c);
    }

    /** `getValue` of an input or a text area. */
    function GetValue(): string
      requires variant.InputState? || variant.TextAreaState?
      reads this
    {
      variant.value
    }

    /**
     * `setValue` of an input or a text area: `getValue` then answers the new
     * value; for a text area it is also the content.
     */
    method SetValue(v: string)
      requires variant.InputState? || variant.TextAreaState?
      modifies this
      ensures variant.InputState? || variant.TextAreaState?
      ensures GetValue() == v
      ensures old(variant).InputState? ==>
                variant == InputState(old(variant).inputType, v, old(variant).placeholder)
      ensures old(variant).TextAreaState? ==>
                variant == TextAreaState(v, old(variant).rows, old(variant).cols) && ContentHTML() == v
      ensures tag == old(tag) && id == old(id) && cssClass == old(cssClass)
    {
      match variant
      case InputState(inputType, _, placeholder) =>
        variant := InputState(inputType, v, placeholder);
      case TextAreaState(_, rows, cols) =>
        variant := TextAreaState(v, rows, cols);
    }

    /**
     * `setPlaceholder`: the markup differs from before at most in the
     * placeholder attribute.
     */
    method SetPlaceholder(p: string)
      requires variant.InputState?
      modifies this
      ensures variant == InputState(old(variant).inputType, old(variant).value, p)
      ensures tag == old(tag) && id == old(id) && cssClass == old(cssClass)
      ensures Without(View().attrs, "placeholder") == Without(old(View()).attrs, "placeholder")
      ensures ValueOf(View().attrs, "placeholder") == ComponentMarkup.Nonempty(p)
    {
      var inputType, value, previous := variant.inputType, variant.value, variant.placeholder;
      var now := InputMarkup.Attrs(inputType, id, cssClass, p, value);
      assert Without(now, "placeholder")
          == Without(InputMarkup.Attrs(inputType, id, cssClass, previous, value), "placeholder") by {
        InputMarkup.PlaceholderOnly(inputType, id, cssClass, previous, p, value);
      }
      assert ValueOf(now, "placeholder") == ComponentMarkup.Nonempty(p) by {
        InputMarkup.AttrsValues(inputType, id, cssClass, p, value);
      }
      variant := InputState(inputType, value, p);
    }
  }

  /**
   * Unchecking and re-checking (or the reverse) a checkbox gives back the
   * markup it had.
   */
  method ToggleAndRestore(box: Component)
    requires box.variant.CheckboxState?
    modifies box
    ensures box.variant.CheckboxState?
    ensures box.ToHTML() == old(box.ToHTML()) && box.IsChecked() == old(box.IsChecked())
    ensures box.tag == old(box.tag) && box.id == old(box.id) && box.cssClass == old(box.cssClass)
  {
    var original := box.IsChecked();
    box.SetChecked(!original);
    box.SetChecked(original);
  }

  /** A button with only a caption renders as `<button>caption</button>`. */
  method DefaultButton(caption: string) returns (html: string)
    ensures html == "<button>" + caption + "</button>"
  {
    var button := new Component.Button(caption);
    html := button.ToHTML();
    ComponentMarkup.BareMarkup("button", caption);
    ButtonTags();
  }

  /** The button's tags as literals; used by `DefaultButton`, `ButtonClosing` and `SubmitButtonText`. */
  lemma ButtonTags()
    ensures "<" + "button" + ">" == "<button>" && "</" + "button" + ">" == "</button>"
  {
  }

  /** A label with only a text renders as `<p>text</p>`. */
  method DefaultLabel(text: string) returns (html: string)
    ensures html == "<p>" + text + "</p>"
  {
    var p := new Component.Label(text);
    html := p.ToHTML();
    ComponentMarkup.BareMarkup("p", text);
    assert "<" + "p" + ">" == "<p>" && "</" + "p" + ">" == "</p>";
  }

  /** Whatever its id and class, a button's markup ends with its closing tag. */
  method ButtonClosing(caption: string, id: string, cssClass: string) returns (html: string)
    ensures |html| >= 9 && html[|html| - 9..] == "</button>"
  {
    var button := new Component.Button(caption, id, cssClass);
    html := button.ToHTML();
    EnclosesEndsWithClose(html, "<" + button.tag, button.ContentHTML(), "</" + button.tag + ">");
    ButtonTags();
  }

  /** The first argument of a button is its caption, the second its id. */
  method SubmitButton() returns (html: string)
    ensures html == "<button id=\"Click me!\">submit</button>"
  {
    var button := new Component.Button("submit", "Click me!");
    html := button.ToHTML();
    SubmitButtonPieces();
    SubmitButtonText();
  }

  /** The pieces the template concatenates for the submit button. */
  lemma SubmitButtonPieces()
    ensures ComponentMarkup.ToHTML("button", "Click me!", "", "submit")
         == "<" + "button" + " id=\"Click me!\"" + "" + ">" + "submit" + ("</" + "button" + ">")
  {
  }

  /** The submit button's pieces joined into one literal; used by `SubmitButton`. */
  lemma SubmitButtonText()
    ensures "<" + "button" + " id=\"Click me!\"" + "" + ">" + "submit" + ("</" + "button" + ">")
         == "<button id=\"Click me!\">submit</button>"
  {
    assert "<" + "button" == "<button";
    assert "<button" + " id=\"Click me!\"" + "" + ">" == "<button id=\"Click me!\">";
    assert "<button id=\"Click me!\">" + "submit" == "<button id=\"Click me!\">submit";
    ButtonTags();
    assert "<button id=\"Click me!\">submit" + "</button>" == "<button id=\"Click me!\">submit</button>";
  }

  /** A fresh checkbox is unchecked. */
  method FreshCheckbox(id: string) returns (html: string)
    ensures html == "<input type=\"checkbox\"" + ComponentMarkup.IdText(id) + ">"
  {
    var box := new Component.Checkbox(id);
    html := box.ToHTML();
  }

  /** A fresh input has type "text" and no value attribute. */
  method FreshInput(id: string) returns (html: string)
    ensures html == "<input type=\"text\"" + ComponentMarkup.IdText(id) + ">"
  {
    var input := new Component.Input(id);
    html := input.ToHTML();
    InputMarkup.DefaultMarkup(id);
  }

  /** A fresh text area is 4 rows by 40 columns and empty. */
  method FreshTextArea(id: string) returns (html: string)
    ensures html == "<textarea" + ComponentMarkup.IdText(id) + " rows=\"4\" cols=\"40\"></textarea>"
  {
    var area := new Component.TextArea(id);
    html := area.ToHTML();
    TextAreaMarkup.DefaultMarkup(id);
  }
}
