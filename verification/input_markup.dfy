/**
 * The markup of an `InputComponent` (src/core/components/Input.h), a
 * self-closing `<input …>`: ` type="…"` always and first, then id, class,
 * placeholder and value, each only when non-empty, in that order.
 * The tag field of the component is not consulted.
 */
module InputMarkup {
  import opened Wrappers
  import opened Markup
  import opened ComponentMarkup

  /** ` placeholder="…"` when the placeholder is non-empty, nothing otherwise. */
  function PlaceholderText(placeholder: string): string {
    if |placeholder| > 0 then " placeholder=\"" + placeholder + "\"" else ""
  }

  /** ` value="…"` when the value is non-empty, nothing otherwise. */
  function ValueText(value: string): string {
    if |value| > 0 then " value=\"" + value + "\"" else ""
  }

  /**
   * `InputComponent::toHTML`: it opens with the type attribute, whatever the
   * type, and ends with `>`; there is no closing tag.
   */
  function ToHTML(inputType: string, id: string, cssClass: string, placeholder: string, value: string): (r: string)
    ensures "<input" + (" type=\"" + inputType + "\"") <= r
    ensures r[|r| - 1] == '>'
  {
    "<input" + (" type=\"" + inputType + "\"") + IdText(id) + ClassText(cssClass)
      + PlaceholderText(placeholder) + ValueText(value) + ">"
  }

  function Attrs(inputType: string, id: string, cssClass: string, placeholder: string, value: string): seq<Attr> {
    [Valued("type", inputType)] + BaseAttrs(id, cssClass)
      + OptionalAttr("placeholder", placeholder) + OptionalAttr("value", value)
  }

  /** The structure `ToHTML` writes: an input element without a body. */
  function View(inputType: string, id: string, cssClass: string, placeholder: string, value: string): Node {
    Void("input", Attrs(inputType, id, cssClass, placeholder, value))
  }

  lemma AttrsTextSplit(inputType: string, id: string, cssClass: string, placeholder: string, value: string)
    ensures AttrsText(Attrs(inputType, id, cssClass, placeholder, value))
         == AttrText(Valued("type", inputType)) + (IdText(id) + ClassText(cssClass))
          + PlaceholderText(placeholder) + ValueText(value)
  {
    var t, b := [Valued("type", inputType)], BaseAttrs(id, cssClass);
    var p, v := OptionalAttr("placeholder", placeholder), OptionalAttr("value", value);
    assert AttrsText(t + b + p + v) == AttrsText(t) + AttrsText(b) + AttrsText(p) + AttrsText(v) by {
      AttrsTextAppend(t + b + p, v);
      AttrsTextAppend(t + b, p);
      AttrsTextAppend(t, b);
    }
    assert AttrsText(t) == AttrText(Valued("type", inputType)) by {
      assert AttrsText(t) == AttrText(Valued("type", inputType)) + AttrsText([]);
    }
    assert AttrsText(b) == IdText(id) + ClassText(cssClass) by {
      BaseAttrsText(id, cssClass);
    }
    assert AttrsText(p) == PlaceholderText(placeholder) by {
      OptionalAttrText("placeholder", placeholder);
      AttrLiterals();
      LiteralAttrText(" placeholder=\"", "placeholder", placeholder);
    }
    assert AttrsText(v) == ValueText(value) by {
      OptionalAttrText("value", value);
      AttrLiterals();
      LiteralAttrText(" value=\"", "value", value);
    }
  }

  /** Regrouping the input's text so that its attribute text stands as one part. */
  lemma GroupAttrText(open: string, t: string, i: string, c: string, p: string, v: string, close: string)
    ensures open + t + i + c + p + v + close == open + (t + (i + c) + p + v) + close
  {
  }

  /** The input's text is exactly the serialization of its structure. */
  lemma ToHTMLIsSerialization(inputType: string, id: string, cssClass: string, placeholder: string, value: string)
    ensures ToHTML(inputType, id, cssClass, placeholder, value) == Serialize(View(inputType, id, cssClass, placeholder, value))
  {
    var t := AttrText(Valued("type", inputType));
    assert " type=\"" + inputType + "\"" == t by {
      AttrLiterals();
      LiteralAttrText(" type=\"", "type", inputType);
    }
    var i, c, p, v := IdText(id), ClassText(cssClass), PlaceholderText(placeholder), ValueText(value);
    var attrs := Attrs(inputType, id, cssClass, placeholder, value);
    assert AttrsText(attrs) == t + (i + c) + p + v by {
      AttrsTextSplit(inputType, id, cssClass, placeholder, value);
    }
    assert Serialize(Void("input", attrs)) == "<input" + AttrsText(attrs) + ">" by {
      TagLiterals();
    }
    GroupAttrText("<input", t, i, c, p, v, ">");
  }

  /**
   * The text reads back as a self-closing `input` element (no body, no
   * closing tag) carrying exactly these attributes, whenever no field
   * written between quotes holds a double quote.
   */
  lemma ToHTMLReadsBack(inputType: string, id: string, cssClass: string, placeholder: string, value: string)
    requires IsValue(inputType) && IsValue(id) && IsValue(cssClass) && IsValue(placeholder) && IsValue(value)
    ensures Parse(ToHTML(inputType, id, cssClass, placeholder, value))
         == Some(Void("input", Attrs(inputType, id, cssClass, placeholder, value)))
  {
    var n := View(inputType, id, cssClass, placeholder, value);
    assert WellFormed(n) by {
      var t, b := [Valued("type", inputType)], BaseAttrs(id, cssClass);
      var p, v := OptionalAttr("placeholder", placeholder), OptionalAttr("value", value);
      FixedNames();
      assert WellFormedAttrs(t);
      BaseAttrsWellFormed(id, cssClass);
      OptionalAttrWellFormed("placeholder", placeholder);
      OptionalAttrWellFormed("value", value);
      WellFormedAttrsAppend(t, b);
      WellFormedAttrsAppend(t + b, p);
      WellFormedAttrsAppend(t + b + p, v);
    }
    ParseRoundTrip(n);
    ToHTMLIsSerialization(inputType, id, cssClass, placeholder, value);
  }

  /**
   * The type always comes first; id, class, placeholder and value follow,
   * each only when non-empty, in exactly that order.
   */
  lemma AttrsOrder(inputType: string, id: string, cssClass: string, placeholder: string, value: string)
    ensures Names(Attrs(inputType, id, cssClass, placeholder, value))
         == ["type"] + NameIf(|id| > 0, "id") + NameIf(|cssClass| > 0, "class")
          + NameIf(|placeholder| > 0, "placeholder") + NameIf(|value| > 0, "value")
  {
    var t, b := [Valued("type", inputType)], BaseAttrs(id, cssClass);
    var p, v := OptionalAttr("placeholder", placeholder), OptionalAttr("value", value);
    var ni, nc := NameIf(|id| > 0, "id"), NameIf(|cssClass| > 0, "class");
    var np, nv := NameIf(|placeholder| > 0, "placeholder"), NameIf(|value| > 0, "value");
    assert Names(t + b + p + v) == Names(t) + Names(b) + Names(p) + Names(v) by {
      NamesAppend4(t, b, p, v);
    }
    assert Names(b) == ni + nc by {
      BaseAttrsMeaning(id, cssClass);
    }
    assert Names(p) == np && Names(v) == nv by {
      OptionalAttrNames("placeholder", placeholder);
      OptionalAttrNames("value", value);
    }
    assert Names(t) == ["type"];
    assert Attrs(inputType, id, cssClass, placeholder, value) == t + b + p + v;
    Flatten(["type"], ni, nc, np, nv);
  }

  /** Each attribute carries its field verbatim; the type is there even when empty. */
  lemma AttrsValues(inputType: string, id: string, cssClass: string, placeholder: string, value: string)
    ensures ValueOf(Attrs(inputType, id, cssClass, placeholder, value), "type") == Some(inputType)
    ensures ValueOf(Attrs(inputType, id, cssClass, placeholder, value), "id") == Nonempty(id)
    ensures ValueOf(Attrs(inputType, id, cssClass, placeholder, value), "class") == Nonempty(cssClass)
    ensures ValueOf(Attrs(inputType, id, cssClass, placeholder, value), "placeholder") == Nonempty(placeholder)
    ensures ValueOf(Attrs(inputType, id, cssClass, placeholder, value), "value") == Nonempty(value)
  {
    var t, b := [Valued("type", inputType)], BaseAttrs(id, cssClass);
    var p, v := OptionalAttr("placeholder", placeholder), OptionalAttr("value", value);
    assert Attrs(inputType, id, cssClass, placeholder, value) == t + b + p + v;
    assert ValueOf(t + b + p + v, "type") == Some(inputType) by {
      ValueOfAppend4(t, b, p, v, "type");
    }
    assert ValueOf(t + b + p + v, "id") == Nonempty(id) by {
      ValueOfAppend4(t, b, p, v, "id");
      BaseAttrsMeaning(id, cssClass);
      OptionalAttrValue("placeholder", placeholder, "id");
      OptionalAttrValue("value", value, "id");
    }
    assert ValueOf(t + b + p + v, "class") == Nonempty(cssClass) by {
      ValueOfAppend4(t, b, p, v, "class");
      BaseAttrsMeaning(id, cssClass);
      OptionalAttrValue("placeholder", placeholder, "class");
      OptionalAttrValue("value", value, "class");
    }
    assert ValueOf(t + b + p + v, "placeholder") == Nonempty(placeholder) by {
      ValueOfAppend4(t, b, p, v, "placeholder");
      BaseAttrsValueOther(id, cssClass, "placeholder");
      OptionalAttrValue("placeholder", placeholder, "placeholder");
    }
    assert ValueOf(t + b + p + v, "value") == Nonempty(value) by {
      ValueOfAppend4(t, b, p, v, "value");
      BaseAttrsValueOther(id, cssClass, "value");
      OptionalAttrValue("placeholder", placeholder, "value");
      OptionalAttrValue("value", value, "value");
    }
  }

  /**
   * Changing the placeholder changes nothing but the placeholder attribute:
   * every other attribute stays, in the same order.
   */
  lemma PlaceholderOnly(inputType: string, id: string, cssClass: string, p1: string, p2: string, value: string)
    ensures Without(Attrs(inputType, id, cssClass, p1, value), "placeholder")
         == Without(Attrs(inputType, id, cssClass, p2, value), "placeholder")
  {
    var t, b, v := [Valued("type", inputType)], BaseAttrs(id, cssClass), OptionalAttr("value", value);
    var q1, q2 := OptionalAttr("placeholder", p1), OptionalAttr("placeholder", p2);
    WithoutAppend(t + b + q1, v, "placeholder");
    WithoutAppend(t + b, q1, "placeholder");
    WithoutAppend(t + b + q2, v, "placeholder");
    WithoutAppend(t + b, q2, "placeholder");
    assert Without(q1, "placeholder") == [] == Without(q2, "placeholder");
  }

  /** The opening a text input writes, as one literal; used by `DefaultMarkup`. */
  lemma TextTypeOpen()
    ensures "<input" + (" type=\"" + "text" + "\"") == "<input type=\"text\""
  {
  }

  /** A text input with no class, placeholder or value: only the id varies. */
  lemma DefaultMarkup(id: string)
    ensures ToHTML("text", id, "", "", "") == "<input type=\"text\"" + IdText(id) + ">"
  {
    assert ClassText("") == [] && PlaceholderText("") == [] && ValueText("") == [];
    TextTypeOpen();
  }
}
