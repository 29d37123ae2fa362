/**
 * The markup of a `Checkbox` (src/core/components/Checkbox.h), which replaces
 * the component template with a self-closing `<input type="checkbox" …>`:
 * optional id, optional class, then ` checked` exactly when the box is checked.
 * The tag field of the component is not consulted.
 */
module CheckboxMarkup {
  import opened Wrappers
  import opened Markup
  import opened ComponentMarkup

  /**
   * `Checkbox::toHTML`: it opens with `<input type="checkbox"` and ends with
   * ` checked>` when checked and with `">` otherwise; there is no closing tag.
   */
  function ToHTML(id: string, cssClass: string, checked: bool): (r: string)
    ensures "<input type=\"checkbox\"" <= r
    ensures checked ==> |r| >= 9 && r[|r| - 9..] == " checked>"
    ensures !checked ==> |r| >= 2 && r[|r| - 2..] == "\">"
  {
    QuoteEnded(id, cssClass);
    Framed(IdText(id), ClassText(cssClass), checked);
    "<input type=\"checkbox\"" + IdText(id) + ClassText(cssClass) + CheckedText(checked) + ">"
  }

  /**
   * The checkbox text opens with `<input type="checkbox"` and ends with the
   * checked text and `>`; the id and class texts before them are each empty
   * or end with a closing quote.
   */
  lemma Framed(i: string, c: string, checked: bool)
    requires i == [] || i[|i| - 1] == '"'
    requires c == [] || c[|c| - 1] == '"'
    ensures var r := "<input type=\"checkbox\"" + i + c + CheckedText(checked) + ">";
      "<input type=\"checkbox\"" <= r &&
      (checked ==> |r| >= 9 && r[|r| - 9..] == " checked>") &&
      (!checked ==> |r| >= 2 && r[|r| - 2..] == "\">")
  {
  }

  /** ` checked` when the box is checked, nothing otherwise. */
  function CheckedText(checked: bool): string {
    if checked then " checked" else ""
  }

  function CheckedAttr(checked: bool): seq<Attr> {
    if checked then [Bare("checked")] else []
  }

  function Attrs(id: string, cssClass: string, checked: bool): seq<Attr> {
    [Valued("type", "checkbox")] + BaseAttrs(id, cssClass) + CheckedAttr(checked)
  }

  /** The structure `ToHTML` writes: an input element without a body. */
  function View(id: string, cssClass: string, checked: bool): Node {
    Void("input", Attrs(id, cssClass, checked))
  }

  lemma AttrsTextSplit(id: string, cssClass: string, checked: bool)
    ensures AttrsText(Attrs(id, cssClass, checked))
         == AttrText(Valued("type", "checkbox")) + AttrsText(BaseAttrs(id, cssClass)) + AttrsText(CheckedAttr(checked))
  {
    var t, b, c := [Valued("type", "checkbox")], BaseAttrs(id, cssClass), CheckedAttr(checked);
    AttrsTextAppend(t + b, c);
    AttrsTextAppend(t, b);
    assert AttrsText(t) == AttrText(Valued("type", "checkbox")) + AttrsText([]);
  }

  lemma CheckedAttrText(checked: bool)
    ensures AttrsText(CheckedAttr(checked)) == CheckedText(checked)
  {
    if checked {
      assert AttrsText([Bare("checked")]) == AttrText(Bare("checked")) + AttrsText([]);
    }
  }

  /** The checkbox's fixed opening as the `input` tag and its `type` attribute; used by `ToHTMLIsSerialization`. */
  lemma OpenText()
    ensures "<input type=\"checkbox\"" == "<input" + AttrText(Valued("type", "checkbox"))
  {
    AttrLiterals();
  }

  /** Regrouping the checkbox's text so that its attribute text stands as one part. */
  lemma GroupAttrText(open: string, t: string, i: string, c: string, k: string, close: string)
    ensures open + t + i + c + k + close == open + (t + (i + c) + k) + close
  {
  }

  /** The checkbox's text is exactly the serialization of its structure. */
  lemma ToHTMLIsSerialization(id: string, cssClass: string, checked: bool)
    ensures ToHTML(id, cssClass, checked) == Serialize(View(id, cssClass, checked))
  {
    var t := AttrText(Valued("type", "checkbox"));
    var i, c, k := IdText(id), ClassText(cssClass), CheckedText(checked);
    var attrs := Attrs(id, cssClass, checked);
    assert ToHTML(id, cssClass, checked) == "<input" + t + i + c + k + ">" by {
      OpenText();
    }
    assert AttrsText(attrs) == t + (i + c) + k by {
      AttrsTextSplit(id, cssClass, checked);
      BaseAttrsText(id, cssClass);
      CheckedAttrText(checked);
    }
    assert Serialize(Void("input", attrs)) == "<input" + AttrsText(attrs) + ">" by {
      TagLiterals();
    }
    GroupAttrText("<input", t, i, c, k, ">");
  }

  /**
   * The text reads back as a self-closing `input` element (no body, no
   * closing tag) carrying exactly these attributes, whenever the id and
   * class hold no double quote.
   */
  lemma ToHTMLReadsBack(id: string, cssClass: string, checked: bool)
    requires IsValue(id) && IsValue(cssClass)
    ensures Parse(ToHTML(id, cssClass, checked)) == Some(Void("input", Attrs(id, cssClass, checked)))
  {
    var n := View(id, cssClass, checked);
    assert WellFormed(n) by {
      var t, b, c := [Valued("type", "checkbox")], BaseAttrs(id, cssClass), CheckedAttr(checked);
      FixedNames();
      assert WellFormedAttrs(t) && WellFormedAttrs(c);
      BaseAttrsWellFormed(id, cssClass);
      WellFormedAttrsAppend(t, b);
      WellFormedAttrsAppend(t + b, c);
    }
    ParseRoundTrip(n);
    ToHTMLIsSerialization(id, cssClass, checked);
  }

  /**
   * `type="checkbox"` always comes first; id and class appear only when
   * non-empty, id before class, both before `checked`; `checked` is present
   * exactly when the box is checked.
   */
  lemma AttrsOrder(id: string, cssClass: string, checked: bool)
    ensures Names(Attrs(id, cssClass, checked))
         == ["type"] + NameIf(|id| > 0, "id") + NameIf(|cssClass| > 0, "class") + NameIf(checked, "checked")
  {
    var t, b, c := [Valued("type", "checkbox")], BaseAttrs(id, cssClass), CheckedAttr(checked);
    var ni, nc, nk := NameIf(|id| > 0, "id"), NameIf(|cssClass| > 0, "class"), NameIf(checked, "checked");
    assert Names(t + b + c) == Names(t) + Names(b) + Names(c) by {
      NamesAppend(t + b, c);
      NamesAppend(t, b);
    }
    assert Names(b) == ni + nc by {
      BaseAttrsMeaning(id, cssClass);
    }
    assert Names(t) == ["type"] && Names(c) == nk;
    assert Attrs(id, cssClass, checked) == t + b + c;
    assert ["type"] + (ni + nc) + nk == ["type"] + ni + nc + nk;
  }

  /** The bare `checked` attribute is present exactly when the box is checked. */
  lemma CheckedPresent(id: string, cssClass: string, checked: bool)
    ensures HasBare(Attrs(id, cssClass, checked), "checked") <==> checked
  {
    var t, b, c := [Valued("type", "checkbox")], BaseAttrs(id, cssClass), CheckedAttr(checked);
    assert Attrs(id, cssClass, checked) == t + b + c;
    if !checked {
      BaseAttrsNotBare(id, cssClass, "checked");
      assert Attrs(id, cssClass, checked) == t + b;
    }
  }

  /** The type is "checkbox"; id and class carry their fields verbatim. */
  lemma AttrsValues(id: string, cssClass: string, checked: bool)
    ensures ValueOf(Attrs(id, cssClass, checked), "type") == Some("checkbox")
    ensures ValueOf(Attrs(id, cssClass, checked), "id") == Nonempty(id)
    ensures ValueOf(Attrs(id, cssClass, checked), "class") == Nonempty(cssClass)
  {
    var t, b, c := [Valued("type", "checkbox")], BaseAttrs(id, cssClass), CheckedAttr(checked);
    BaseAttrsMeaning(id, cssClass);
    ValueOfAppend(t + b, c, "id");
    ValueOfAppend(t, b, "id");
    ValueOfAppend(t + b, c, "class");
    ValueOfAppend(t, b, "class");
    ValueOfAppend(t + b, c, "type");
  }

  /** The markup tells whether the box is checked: the attribute adds 8 characters. */
  lemma CheckedDetermined(id: string, cssClass: string, a: bool, b: bool)
    requires ToHTML(id, cssClass, a) == ToHTML(id, cssClass, b)
    ensures a == b
  {
    assert |ToHTML(id, cssClass, true)| == |ToHTML(id, cssClass, false)| + 8;
  }
}
