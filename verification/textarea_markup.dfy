/**
 * The markup of a `TextAreaComponent` (src/core/components/TextArea.h):
 * `<textarea`, optional id, optional class, then ` rows="…" cols="…"` always,
 * as decimal integers, then `>`, the value verbatim and `</textarea>`.
 * The tag field of the component is not consulted.
 */
module TextAreaMarkup {
  import opened Wrappers
  import opened Markup
  import opened Decimal
  import opened ComponentMarkup

  /** ` rows="…" cols="…"`, written unconditionally. */
  function SizeText(rows: int, cols: int): string {
    " rows=\"" + IntToString(rows) + "\" cols=\"" + IntToString(cols) + "\""
  }

  /**
   * `TextAreaComponent::toHTML`: it opens with `<textarea` and ends with
   * exactly the value followed by `</textarea>`.
   */
  function ToHTML(id: string, cssClass: string, rows: int, cols: int, value: string): (r: string)
    ensures Encloses(r, "<textarea", value, "</textarea>")
  {
    Framed(IdText(id), ClassText(cssClass), SizeText(rows, cols), value);
    "<textarea" + IdText(id) + ClassText(cssClass) + SizeText(rows, cols) + ">" + value + "</textarea>"
  }

  /** The text-area text opens with `<textarea` and ends with the value and `</textarea>`, whatever the attribute text. */
  lemma Framed(i: string, c: string, sz: string, value: string)
    ensures Encloses("<textarea" + i + c + sz + ">" + value + "</textarea>", "<textarea", value, "</textarea>")
  {
  }

  function SizeAttrs(rows: int, cols: int): seq<Attr> {
    [Valued("rows", IntToString(rows)), Valued("cols", IntToString(cols))]
  }

  function Attrs(id: string, cssClass: string, rows: int, cols: int): seq<Attr> {
    BaseAttrs(id, cssClass) + SizeAttrs(rows, cols)
  }

  /** The structure `ToHTML` writes: a textarea element whose body is the value. */
  function View(id: string, cssClass: string, rows: int, cols: int, value: string): Node {
    Element("textarea", Attrs(id, cssClass, rows, cols), value)
  }

  /** Regrouping the rows and cols texts into one attribute text each; used by `SizeAttrsText`. */
  lemma SplitSize(a: string, r: string, q: string, b: string, c: string)
    ensures a + r + (q + b) + c + q == (a + r + q) + (b + c + q)
  {
  }

  lemma SizeAttrsText(rows: int, cols: int)
    ensures AttrsText(SizeAttrs(rows, cols)) == SizeText(rows, cols)
  {
    var r, c := IntToString(rows), IntToString(cols);
    assert AttrsText(SizeAttrs(rows, cols)) == AttrText(Valued("rows", r)) + AttrText(Valued("cols", c)) by {
      assert SizeAttrs(rows, cols)[1..] == [Valued("cols", c)];
      assert AttrsText([Valued("cols", c)]) == AttrText(Valued("cols", c)) + AttrsText([]);
    }
    assert " rows=\"" + r + "\"" == AttrText(Valued("rows", r)) by {
      AttrLiterals();
      LiteralAttrText(" rows=\"", "rows", r);
    }
    assert " cols=\"" + c + "\"" == AttrText(Valued("cols", c)) by {
      AttrLiterals();
      LiteralAttrText(" cols=\"", "cols", c);
    }
    assert "\" cols=\"" == "\"" + " cols=\"";
    SplitSize(" rows=\"", r, "\"", " cols=\"", c);
  }

  /** Regrouping the text area's text so that its attribute text stands as one part. */
  lemma GroupAttrText(open: string, i: string, c: string, s: string, close: string, value: string, end: string)
    ensures open + i + c + s + close + value + end == open + (i + c + s) + close + value + end
  {
  }

  /** The text area's text is exactly the serialization of its structure. */
  lemma ToHTMLIsSerialization(id: string, cssClass: string, rows: int, cols: int, value: string)
    ensures ToHTML(id, cssClass, rows, cols, value) == Serialize(View(id, cssClass, rows, cols, value))
  {
    var i, c, sz := IdText(id), ClassText(cssClass), SizeText(rows, cols);
    var attrs := Attrs(id, cssClass, rows, cols);
    assert AttrsText(attrs) == i + c + sz by {
      AttrsTextAppend(BaseAttrs(id, cssClass), SizeAttrs(rows, cols));
      BaseAttrsText(id, cssClass);
      SizeAttrsText(rows, cols);
    }
    assert Serialize(Element("textarea", attrs, value)) == "<textarea" + AttrsText(attrs) + ">" + value + "</textarea>" by {
      TagLiterals();
    }
    GroupAttrText("<textarea", i, c, sz, ">", value, "</textarea>");
  }

  /**
   * The text reads back as a `textarea` element with exactly these
   * attributes and the value as its body, whenever the id and class hold no
   * double quote. The value itself may hold anything.
   */
  lemma ToHTMLReadsBack(id: string, cssClass: string, rows: int, cols: int, value: string)
    requires IsValue(id) && IsValue(cssClass)
    ensures Parse(ToHTML(id, cssClass, rows, cols, value))
         == Some(Element("textarea", Attrs(id, cssClass, rows, cols), value))
  {
    var n := View(id, cssClass, rows, cols, value);
    assert WellFormed(n) by {
      FixedNames();
      BaseAttrsWellFormed(id, cssClass);
      assert WellFormedAttrs(SizeAttrs(rows, cols));
      WellFormedAttrsAppend(BaseAttrs(id, cssClass), SizeAttrs(rows, cols));
    }
    ParseRoundTrip(n);
    ToHTMLIsSerialization(id, cssClass, rows, cols, value);
  }

  /** id and class only when non-empty, id first; rows and cols always, last. */
  lemma AttrsOrder(id: string, cssClass: string, rows: int, cols: int)
    ensures Names(Attrs(id, cssClass, rows, cols))
         == NameIf(|id| > 0, "id") + NameIf(|cssClass| > 0, "class") + ["rows", "cols"]
  {
    BaseAttrsMeaning(id, cssClass);
    NamesAppend(BaseAttrs(id, cssClass), SizeAttrs(rows, cols));
  }

  /** id and class carry their fields verbatim; rows and cols read back as the numbers. */
  lemma AttrsValues(id: string, cssClass: string, rows: int, cols: int)
    ensures ValueOf(Attrs(id, cssClass, rows, cols), "id") == Nonempty(id)
    ensures ValueOf(Attrs(id, cssClass, rows, cols), "class") == Nonempty(cssClass)
    ensures ValueOf(Attrs(id, cssClass, rows, cols), "rows") == Some(IntToString(rows))
    ensures ValueOf(Attrs(id, cssClass, rows, cols), "cols") == Some(IntToString(cols))
    ensures ParseInt(IntToString(rows)) == Some(rows) && ParseInt(IntToString(cols)) == Some(cols)
  {
    var b, sz := BaseAttrs(id, cssClass), SizeAttrs(rows, cols);
    BaseAttrsMeaning(id, cssClass);
    ValueOfAppend(b, sz, "id");
    ValueOfAppend(b, sz, "class");
    ValueOfAppend(b, sz, "rows");
    BaseAttrsValueOther(id, cssClass, "rows");
    ValueOfAppend(b, sz, "cols");
    BaseAttrsValueOther(id, cssClass, "cols");
    IntToStringRoundTrip(rows);
    IntToStringRoundTrip(cols);
  }

  /** The decimal text of the default size; used by `DefaultSizeText`. */
  lemma DefaultDigits()
    ensures IntToString(4) == "4" && IntToString(40) == "40"
  {
    assert NatToString(40) == NatToString(4) + [DigitChar(0)];
  }

  /** The size attributes of the default text area, as one literal; used by `DefaultMarkup`. */
  lemma DefaultSizeText()
    ensures SizeText(4, 40) == " rows=\"4\" cols=\"40\""
  {
    DefaultDigits();
  }

  /** The end of the default text area's text, as one literal; used by `DefaultMarkup`. */
  lemma DefaultTail()
    ensures " rows=\"4\" cols=\"40\"" + ">" + "" + "</textarea>" == " rows=\"4\" cols=\"40\"></textarea>"
  {
  }

  /** With the default size, no class and no value, only the id varies. */
  lemma DefaultMarkup(id: string)
    ensures ToHTML(id, "", 4, 40, "") == "<textarea" + IdText(id) + " rows=\"4\" cols=\"40\"></textarea>"
  {
    var i, sz := IdText(id), SizeText(4, 40);
    assert ToHTML(id, "", 4, 40, "") == "<textarea" + i + (sz + ">" + "" + "</textarea>") by {
      assert ClassText("") == [];
    }
    assert sz + ">" + "" + "</textarea>" == " rows=\"4\" cols=\"40\"></textarea>" by {
      DefaultSizeText();
      DefaultTail();
    }
  }
}
