/**
 * The markup template of the abstract `Component` (src/core/components/Component.h):
 * `<tag`, then ` id="…"` only when the id is non-empty, then ` class="…"`
 * only when the class is non-empty, then `>`, the variant's content and
 * `</tag>`. Values and content are copied verbatim.
 */
module ComponentMarkup {
  import opened Wrappers
  import opened Markup

  /** The tag a component gets when none is given. */
  const DefaultTag: string := "div"

  /** An attribute that is written only when its value is non-empty. */
  function OptionalAttr(name: string, value: string): (r: seq<Attr>)
    ensures |r| <= 1
  {
    if |value| > 0 then [Valued(name, value)] else []
  }

  /** The value an optional attribute reads back as. */
  function Nonempty(value: string): Option<string> {
    if |value| > 0 then Some(value) else None
  }

  /** The id and class attributes, id first. */
  function BaseAttrs(id: string, cssClass: string): seq<Attr> {
    OptionalAttr("id", id) + OptionalAttr("class", cssClass)
  }

  /** ` id="…"` when the id is non-empty, nothing otherwise. */
  function IdText(id: string): string {
    if |id| > 0 then " id=\"" + id + "\"" else ""
  }

  /** ` class="…"` when the class is non-empty, nothing otherwise. */
  function ClassText(cssClass: string): string {
    if |cssClass| > 0 then " class=\"" + cssClass + "\"" else ""
  }

  /**
   * `Component::toHTML` with `content` as the result of `getContentHTML`:
   * it opens with `<tag` and ends with exactly the content followed by a
   * closing tag naming the same tag.
   */
  function ToHTML(tag: string, id: string, cssClass: string, content: string): (r: string)
    ensures Encloses(r, "<" + tag, content, "</" + tag + ">")
  {
    Framed(tag, IdText(id), ClassText(cssClass), content);
    "<" + tag + IdText(id) + ClassText(cssClass) + ">" + content + ("</" + tag + ">")
  }

  /** The template text opens with `<tag` and ends with the content and `</tag>`, whatever the attribute text. */
  lemma Framed(tag: string, i: string, c: string, content: string)
    ensures Encloses("<" + tag + i + c + ">" + content + ("</" + tag + ">"), "<" + tag, content, "</" + tag + ">")
  {
  }

  /** The id and class texts are each empty or end with the quote that closes their value. */
  lemma QuoteEnded(id: string, cssClass: string)
    ensures IdText(id) == [] || IdText(id)[|IdText(id)| - 1] == '"'
    ensures ClassText(cssClass) == [] || ClassText(cssClass)[|ClassText(cssClass)| - 1] == '"'
  {
  }

  /** The structure `ToHTML` writes. */
  function View(tag: string, id: string, cssClass: string, content: string): Node {
    Element(tag, BaseAttrs(id, cssClass), content)
  }

  lemma OptionalAttrText(name: string, value: string)
    ensures AttrsText(OptionalAttr(name, value)) == if |value| > 0 then AttrText(Valued(name, value)) else []
  {
    if |value| > 0 {
      assert AttrsText([Valued(name, value)]) == AttrText(Valued(name, value)) + AttrsText([]);
    }
  }

  /** ` name="` written as one literal is the start of an attribute's text. */
  lemma LiteralAttrText(literal: string, name: string, value: string)
    requires literal == " " + name + "=\""
    ensures literal + value + "\"" == AttrText(Valued(name, value))
  {
  }

  /** The literal tags the self-rendering components write; used by the serialization lemmas. */
  lemma TagLiterals()
    ensures "<input" == "<" + "input"
    ensures "<textarea" == "<" + "textarea"
    ensures "</textarea>" == CloseTag("textarea")
  {
  }

  /** The literals the components write before each attribute value; used by the serialization lemmas. */
  lemma AttrLiterals()
    ensures " id=\"" == " " + "id" + "=\""
    ensures " class=\"" == " " + "class" + "=\""
    ensures " type=\"" == " " + "type" + "=\""
    ensures " placeholder=\"" == " " + "placeholder" + "=\""
    ensures " value=\"" == " " + "value" + "=\""
    ensures " rows=\"" == " " + "rows" + "=\""
    ensures " cols=\"" == " " + "cols" + "=\""
  {
  }

  /** The attribute names and tags the components write are names. */
  lemma FixedNames()
    ensures IsName("id") && IsName("class") && IsName("type") && IsName("checked")
    ensures IsName("placeholder") && IsName("value") && IsName("rows") && IsName("cols")
    ensures IsName("input") && IsName("textarea") && IsName("button") && IsName("p") && IsName("div")
  {
  }

  /** An optional attribute holds its value under its own name only. */
  lemma OptionalAttrValue(name: string, value: string, query: string)
    ensures ValueOf(OptionalAttr(name, value), query) == if query == name then Nonempty(value) else None
  {
  }

  /** An optional attribute carries its name exactly when its value is non-empty. */
  lemma OptionalAttrNames(name: string, value: string)
    ensures Names(OptionalAttr(name, value)) == NameIf(|value| > 0, name)
  {
  }

  lemma OptionalAttrWellFormed(name: string, value: string)
    requires IsName(name) && IsValue(value)
    ensures WellFormedAttrs(OptionalAttr(name, value))
  {
  }

  lemma BaseAttrsText(id: string, cssClass: string)
    ensures AttrsText(BaseAttrs(id, cssClass)) == IdText(id) + ClassText(cssClass)
  {
    var a, b := OptionalAttr("id", id), OptionalAttr("class", cssClass);
    AttrsTextAppend(a, b);
    OptionalAttrText("id", id);
    OptionalAttrText("class", cssClass);
    AttrLiterals();
    LiteralAttrText(" id=\"", "id", id);
    LiteralAttrText(" class=\"", "class", cssClass);
    assert BaseAttrs(id, cssClass) == a + b;
  }

  lemma BaseAttrsWellFormed(id: string, cssClass: string)
    requires IsValue(id) && IsValue(cssClass)
    ensures WellFormedAttrs(BaseAttrs(id, cssClass))
  {
    FixedNames();
    OptionalAttrWellFormed("id", id);
    OptionalAttrWellFormed("class", cssClass);
    WellFormedAttrsAppend(OptionalAttr("id", id), OptionalAttr("class", cssClass));
  }

  /** The id and class are never bare attributes. */
  lemma BaseAttrsNotBare(id: string, cssClass: string, name: string)
    ensures Bare(name) !in BaseAttrs(id, cssClass)
  {
    assert BaseAttrs(id, cssClass) == OptionalAttr("id", id) + OptionalAttr("class", cssClass);
  }

  /**
   * The id attribute is present exactly when the id is non-empty, the class
   * attribute exactly when the class is non-empty, id first, each carrying
   * its field verbatim.
   */
  lemma BaseAttrsMeaning(id: string, cssClass: string)
    ensures Names(BaseAttrs(id, cssClass)) == NameIf(|id| > 0, "id") + NameIf(|cssClass| > 0, "class")
    ensures ValueOf(BaseAttrs(id, cssClass), "id") == Nonempty(id)
    ensures ValueOf(BaseAttrs(id, cssClass), "class") == Nonempty(cssClass)
  {
    var a, b := OptionalAttr("id", id), OptionalAttr("class", cssClass);
    ValueOfAppend(a, b, "id");
    ValueOfAppend(a, b, "class");
    NamesAppend(a, b);
  }

  /** The id and class attributes hold nothing under any other name. */
  lemma BaseAttrsValueOther(id: string, cssClass: string, query: string)
    requires query != "id" && query != "class"
    ensures ValueOf(BaseAttrs(id, cssClass), query) == None
  {
    ValueOfAppend(OptionalAttr("id", id), OptionalAttr("class", cssClass), query);
    OptionalAttrValue("id", id, query);
    OptionalAttrValue("class", cssClass, query);
  }

  /** The opening tag the template writes, with the optional id and class. */
  lemma OpenTagText(tag: string, id: string, cssClass: string)
    ensures OpenTag(tag, BaseAttrs(id, cssClass)) == "<" + tag + IdText(id) + ClassText(cssClass) + ">"
  {
    var i, c := IdText(id), ClassText(cssClass);
    assert AttrsText(BaseAttrs(id, cssClass)) == i + c by {
      BaseAttrsText(id, cssClass);
    }
    assert "<" + tag + (i + c) + ">" == "<" + tag + i + c + ">";
  }

  /** The template's text is exactly the serialization of its structure. */
  lemma ToHTMLIsSerialization(tag: string, id: string, cssClass: string, content: string)
    ensures ToHTML(tag, id, cssClass, content) == Serialize(View(tag, id, cssClass, content))
  {
    OpenTagText(tag, id, cssClass);
  }

  /**
   * The opening and closing tag carry the same tag, the attributes are those
   * of BaseAttrs, and the body between them is exactly the content, whenever
   * the tag is a name and the id and class hold no double quote.
   */
  lemma ToHTMLReadsBack(tag: string, id: string, cssClass: string, content: string)
    requires IsName(tag) && IsValue(id) && IsValue(cssClass)
    ensures Parse(ToHTML(tag, id, cssClass, content)) == Some(Element(tag, BaseAttrs(id, cssClass), content))
  {
    ToHTMLIsSerialization(tag, id, cssClass, content);
    BaseAttrsWellFormed(id, cssClass);
    ParseRoundTrip(View(tag, id, cssClass, content));
  }

  /** A component with the default tag, no id and no class renders as a bare div. */
  lemma DefaultMarkup(content: string)
    ensures ToHTML(DefaultTag, "", "", content) == "<div>" + content + "</div>"
  {
    BareMarkup(DefaultTag, content);
  }

  /** Without id and class, the template writes only the tags around the content. */
  lemma BareMarkup(tag: string, content: string)
    ensures ToHTML(tag, "", "", content) == "<" + tag + ">" + content + ("</" + tag + ">")
  {
    assert IdText("") == [] && ClassText("") == [];
    assert "<" + tag + [] + [] + ">" == "<" + tag + ">";
  }
}
