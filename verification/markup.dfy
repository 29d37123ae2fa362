/**
 * The shape of the markup the components emit: an element is an opening tag
 * `<tag attr...>`, then (unless it is self-closing) a body and `</tag>`.
 * An attribute is either ` name="value"` or a bare ` name`.
 *
 * This module is the reference against which every component's string
 * concatenation is checked: a serializer from the structured view to text,
 * and a parser that recovers the view from the text. Values are written
 * verbatim (nothing is escaped), so the parser can recover them only when
 * they contain no double quote.
 */
module Markup {
  import opened Wrappers

  datatype Attr = Valued(name: string, value: string) | Bare(name: string)

  datatype Node =
    | Element(tag: string, attrs: seq<Attr>, content: string)
    | Void(tag: string, attrs: seq<Attr>)

  /** `r` opens with `open` and ends with `body` immediately followed by `close`. */
  predicate Encloses(r: string, open: string, body: string, close: string) {
    open <= r && |r| >= |body| + |close| && r[|r| - |body| - |close|..] == body + close
  }

  /** Text that ends with a body and a closing text ends with the closing text. */
  lemma EnclosesEndsWithClose(r: string, open: string, body: string, close: string)
    requires Encloses(r, open, body, close)
    ensures |r| >= |close| && r[|r| - |close|..] == close
  {
    assert r[|r| - |close|..] == r[|r| - |body| - |close|..][|body|..];
  }

  /** Characters that may appear in a tag or attribute name. */
  predicate IsNameChar(c: char) {
    c != ' ' && c != '=' && c != '"' && c != '>'
  }

  predicate IsName(s: string) {
    |s| > 0 && forall i :: 0 <= i < |s| ==> IsNameChar(s[i])
  }

  /** A value that survives being written between double quotes unescaped. */
  predicate IsValue(s: string) {
    forall i :: 0 <= i < |s| ==> s[i] != '"'
  }

  predicate WellFormedAttr(a: Attr) {
    IsName(a.name) && (a.Valued? ==> IsValue(a.value))
  }

  predicate WellFormedAttrs(attrs: seq<Attr>) {
    forall i :: 0 <= i < |attrs| ==> WellFormedAttr(attrs[i])
  }

  predicate WellFormed(n: Node) {
    IsName(n.tag) && WellFormedAttrs(n.attrs)
  }

  // ---------------------------------------------------------------------
  // Serializer

  function AttrText(a: Attr): (r: string)
    ensures |r| > 0 && r[0] == ' '
  {
    match a
    case Valued(name, value) => " " + name + "=\"" + value + "\""
    case Bare(name) => " " + name
  }

  function AttrsText(attrs: seq<Attr>): (r: string)
    ensures attrs == [] <==> r == []
    ensures r != [] ==> r[0] == ' '
  {
    if attrs == [] then [] else AttrText(attrs[0]) + AttrsText(attrs[1..])
  }

  function OpenTag(tag: string, attrs: seq<Attr>): string {
    "<" + tag + AttrsText(attrs) + ">"
  }

  function CloseTag(tag: string): string {
    "</" + tag + ">"
  }

  function Serialize(n: Node): (r: string)
    ensures |r| >= 2 && r[0] == '<' && r[|r| - 1] == '>'
  {
    match n
    case Element(tag, attrs, content) => OpenTag(tag, attrs) + content + CloseTag(tag)
    case Void(tag, attrs) => OpenTag(tag, attrs)
  }

  // ---------------------------------------------------------------------
  // Parser

  /** Splits off the longest prefix of name characters. */
  function TakeName(s: string): (r: (string, string))
    ensures r.0 + r.1 == s
    ensures forall i :: 0 <= i < |r.0| ==> IsNameChar(r.0[i])
    ensures r.1 != [] ==> !IsNameChar(r.1[0])
  {
    if s == [] || !IsNameChar(s[0]) then ([], s)
    else
      var p := TakeName(s[1..]);
      assert s == [s[0]] + s[1..];
      ([s[0]] + p.0, p.1)
  }

  /** Splits at the first double quote, dropping it; None if there is none. */
  function SplitQuote(s: string): (r: Option<(string, string)>)
    ensures r.Some? ==> r.value.0 + "\"" + r.value.1 == s && IsValue(r.value.0)
    ensures r.None? ==> IsValue(s)
  {
    if s == [] then None
    else if s[0] == '"' then Some(([], s[1..]))
    else
      match SplitQuote(s[1..])
      case None => None
      case Some(p) => Some(([s[0]] + p.0, p.1))
  }

  /**
   * Reads one attribute from text that starts with a space: the name, then
   * either `="value"` or nothing (a bare attribute).
   */
  function ParseAttr(s: string): (r: Option<(Attr, string)>)
    requires s != [] && s[0] == ' '
    ensures r.Some? ==> |r.value.1| < |s|
  {
    var p := TakeName(s[1..]);
    if p.0 == [] then None
    else if |p.1| >= 2 && p.1[0] == '=' && p.1[1] == '"' then
      match SplitQuote(p.1[2..])
      case None => None
      case Some(vt) => Some((Valued(p.0, vt.0), vt.1))
    else Some((Bare(p.0), p.1))
  }

  /**
   * Reads attributes for as long as the text starts with a space, and returns
   * them with the text that follows.
   */
  function ParseAttrs(s: string): (r: Option<(seq<Attr>, string)>)
    decreases |s|
  {
    if s == [] || s[0] != ' ' then Some(([], s))
    else
      match ParseAttr(s)
      case None => None
      case Some(at) =>
        match ParseAttrs(at.1)
        case None => None
        case Some(q) => Some(([at.0] + q.0, q.1))
  }

  /** Reads `<tag attrs>` and returns the tag, the attributes and the rest. */
  function ParseOpenTag(s: string): (r: Option<(string, seq<Attr>, string)>)
  {
    if s == [] || s[0] != '<' then None
    else
      var p := TakeName(s[1..]);
      if p.0 == [] then None
      else
        match ParseAttrs(p.1)
        case None => None
        case Some(q) =>
          if q.1 == [] || q.1[0] != '>' then None
          else Some((p.0, q.0, q.1[1..]))
  }

  /**
   * Reads what follows an opening tag: nothing for a self-closing element,
   * otherwise the content followed by the matching closing tag.
   */
  function ParseBody(tag: string, attrs: seq<Attr>, body: string): (r: Option<Node>)
    ensures r.Some? ==> r.value.tag == tag && r.value.attrs == attrs
  {
    var close := CloseTag(tag);
    if body == [] then Some(Void(tag, attrs))
    else if |close| <= |body| && body[|body| - |close|..] == close then
      Some(Element(tag, attrs, body[..|body| - |close|]))
    else None
  }

  /** Recovers an element from its text. */
  function Parse(s: string): (r: Option<Node>)
  {
    match ParseOpenTag(s)
    case None => None
    case Some(o) => ParseBody(o.0, o.1, o.2)
  }

  // ---------------------------------------------------------------------
  // Round trip

  lemma {:induction false} TakeNameOf(name: string, rest: string)
    requires forall i :: 0 <= i < |name| ==> IsNameChar(name[i])
    requires rest == [] || !IsNameChar(rest[0])
    ensures TakeName(name + rest) == (name, rest)
  {
    var s := name + rest;
    if name == [] {
      assert s == rest;
    } else {
      assert s[0] == name[0] && IsNameChar(s[0]);
      assert s[1..] == name[1..] + rest;
      TakeNameOf(name[1..], rest);
      assert [name[0]] + name[1..] == name;
    }
  }

  lemma {:induction false} SplitQuoteOf(value: string, rest: string)
    requires IsValue(value)
    ensures SplitQuote(value + "\"" + rest) == Some((value, rest))
  {
    var s := value + "\"" + rest;
    if value == [] {
      assert s == "\"" + rest;
      assert s[1..] == rest;
    } else {
      assert s[0] == value[0] && s[0] != '"';
      assert s[1..] == value[1..] + "\"" + rest;
      SplitQuoteOf(value[1..], rest);
      assert [value[0]] + value[1..] == value;
    }
  }

  /** The steps of ParseAttr on a valued attribute. */
  lemma ParseAttrValued(s: string, name: string, after: string, value: string, more: string)
    requires s != [] && s[0] == ' ' && TakeName(s[1..]) == (name, after) && name != []
    requires |after| >= 2 && after[0] == '=' && after[1] == '"'
    requires SplitQuote(after[2..]) == Some((value, more))
    ensures ParseAttr(s) == Some((Valued(name, value), more))
  {
  }

  /** Where the pieces of a written `name="value"` attribute sit. */
  lemma ValuedTextLayout(name: string, value: string, more: string)
    ensures var s := AttrText(Valued(name, value)) + more;
      var after := "=\"" + (value + "\"" + more);
      s != [] && s[0] == ' ' && s[1..] == name + after &&
      |after| >= 2 && after[0] == '=' && after[1] == '"' && after[2..] == value + "\"" + more
  {
    var after := "=\"" + (value + "\"" + more);
    var s := AttrText(Valued(name, value)) + more;
    assert s == " " + (name + after);
  }

  /** One written `name="value"` attribute reads back, with the text after it. */
  lemma ParseValuedOf(name: string, value: string, more: string)
    requires IsName(name) && IsValue(value)
    ensures ParseAttr(AttrText(Valued(name, value)) + more) == Some((Valued(name, value), more))
  {
    var after := "=\"" + (value + "\"" + more);
    ValuedTextLayout(name, value, more);
    TakeNameOf(name, after);
    SplitQuoteOf(value, more);
    ParseAttrValued(AttrText(Valued(name, value)) + more, name, after, value, more);
  }

  /** One written bare attribute reads back, with the text after it. */
  lemma ParseBareOf(name: string, more: string)
    requires IsName(name)
    requires more == [] || more[0] == ' ' || more[0] == '>'
    ensures ParseAttr(AttrText(Bare(name)) + more) == Some((Bare(name), more))
  {
    var s := AttrText(Bare(name)) + more;
    assert s[1..] == name + more;
    TakeNameOf(name, more);
  }

  /** One written attribute reads back, when a space, `>` or nothing follows. */
  lemma ParseAttrOf(a: Attr, more: string)
    requires WellFormedAttr(a)
    requires more == [] || more[0] == ' ' || more[0] == '>'
    ensures ParseAttr(AttrText(a) + more) == Some((a, more))
  {
    if a.Valued? {
      ParseValuedOf(a.name, a.value, more);
    } else {
      ParseBareOf(a.name, more);
    }
  }

  /** One step of ParseAttrs: an attribute, then the attributes after it. */
  lemma ParseAttrsStep(s: string, a: Attr, more: string, tail: seq<Attr>, rest: string)
    requires s != [] && s[0] == ' '
    requires ParseAttr(s) == Some((a, more))
    requires ParseAttrs(more) == Some((tail, rest))
    ensures ParseAttrs(s) == Some(([a] + tail, rest))
  {
  }

  lemma {:induction false} ParseAttrsRoundTrip(attrs: seq<Attr>, rest: string)
    requires WellFormedAttrs(attrs)
    requires rest == [] || rest[0] == '>'
    ensures ParseAttrs(AttrsText(attrs) + rest) == Some((attrs, rest))
  {
    if attrs == [] {
      assert AttrsText(attrs) + rest == rest;
    } else {
      var a, tail := attrs[0], attrs[1..];
      var more := AttrsText(tail) + rest;
      var s := AttrText(a) + more;
      assert AttrsText(attrs) + rest == s;
      assert WellFormedAttr(a);
      ParseAttrOf(a, more);
      assert WellFormedAttrs(tail) by {
        forall i | 0 <= i < |tail|
          ensures WellFormedAttr(tail[i])
        {
          assert tail[i] == attrs[i + 1];
        }
      }
      ParseAttrsRoundTrip(tail, rest);
      ParseAttrsStep(s, a, more, tail, rest);
      assert [a] + tail == attrs;
    }
  }

  /** A written opening tag reads back, with whatever text follows it. */
  lemma ParseOpenTagOf(tag: string, attrs: seq<Attr>, body: string)
    requires IsName(tag) && WellFormedAttrs(attrs)
    ensures ParseOpenTag(OpenTag(tag, attrs) + body) == Some((tag, attrs, body))
  {
    var s := OpenTag(tag, attrs) + body;
    var after := AttrsText(attrs) + (">" + body);
    assert s[1..] == tag + after;
    TakeNameOf(tag, after);
    ParseAttrsRoundTrip(attrs, ">" + body);
  }

  /** The content and closing tag of an element read back as that content. */
  lemma ParseBodyOf(tag: string, attrs: seq<Attr>, content: string)
    ensures ParseBody(tag, attrs, content + CloseTag(tag)) == Some(Element(tag, attrs, content))
  {
    var close := CloseTag(tag);
    var body := content + close;
    assert body[|body| - |close|..] == close;
    assert body[..|body| - |close|] == content;
  }

  /** What follows the opening tag in a written element. */
  function BodyText(n: Node): string {
    if n.Element? then n.content + CloseTag(n.tag) else []
  }

  lemma SerializeLayout(n: Node)
    ensures Serialize(n) == OpenTag(n.tag, n.attrs) + BodyText(n)
  {
  }

  /** Every well-formed element is recovered from its text. */
  lemma ParseRoundTrip(n: Node)
    requires WellFormed(n)
    ensures Parse(Serialize(n)) == Some(n)
  {
    SerializeLayout(n);
    ParseOpenTagOf(n.tag, n.attrs, BodyText(n));
    if n.Element? {
      ParseBodyOf(n.tag, n.attrs, n.content);
    }
  }

  /** Distinct well-formed elements are written differently. */
  lemma SerializeInjective(a: Node, b: Node)
    requires WellFormed(a) && WellFormed(b)
    requires Serialize(a) == Serialize(b)
    ensures a == b
  {
    ParseRoundTrip(a);
    ParseRoundTrip(b);
  }

  /**
   * Values are inserted verbatim: a value holding a double quote yields the
   * same text as an element with one more attribute, so the text cannot tell
   * the two apart.
   */
  lemma QuoteInValueForgesAttribute(tag: string, name: string, v: string, other: string, w: string)
    ensures Serialize(Void(tag, [Valued(name, v + "\" " + other + "=\"" + w)]))
         == Serialize(Void(tag, [Valued(name, v), Valued(other, w)]))
  {
    var forged := [Valued(name, v + "\" " + other + "=\"" + w)];
    var honest := [Valued(name, v), Valued(other, w)];
    assert AttrsText(forged) == AttrsText(honest) by {
      assert AttrsText(forged) == AttrText(forged[0]) + AttrsText([]);
      assert AttrsText(honest) == AttrText(honest[0]) + AttrText(honest[1]) by {
        assert AttrsText(honest[1..]) == AttrText(honest[1]) + AttrsText([]);
      }
      ForgedText(name, v, other, w);
    }
  }

  lemma ForgedText(name: string, v: string, other: string, w: string)
    ensures " " + name + "=\"" + (v + "\" " + other + "=\"" + w) + "\""
         == (" " + name + "=\"" + v + "\"") + (" " + other + "=\"" + w + "\"")
  {
    assert "\" " == "\"" + " ";
  }

  // ---------------------------------------------------------------------
  // Reading attributes

  function Names(attrs: seq<Attr>): (r: seq<string>)
    ensures |r| == |attrs|
    ensures forall i :: 0 <= i < |attrs| ==> r[i] == attrs[i].name
  {
    if attrs == [] then [] else [attrs[0].name] + Names(attrs[1..])
  }

  /** The value of the first `name="value"` attribute called `name`. */
  function ValueOf(attrs: seq<Attr>, name: string): (r: Option<string>)
    ensures r.Some? ==> Valued(name, r.value) in attrs
    ensures r.None? ==> forall i :: 0 <= i < |attrs| ==> !(attrs[i].Valued? && attrs[i].name == name)
  {
    if attrs == [] then None
    else if attrs[0].Valued? && attrs[0].name == name then Some(attrs[0].value)
    else ValueOf(attrs[1..], name)
  }

  predicate HasBare(attrs: seq<Attr>, name: string) {
    Bare(name) in attrs
  }

  /** The attributes not called `name`, in order. */
  function Without(attrs: seq<Attr>, name: string): (r: seq<Attr>)
    ensures forall i :: 0 <= i < |r| ==> r[i].name != name
  {
    if attrs == [] then []
    else if attrs[0].name == name then Without(attrs[1..], name)
    else [attrs[0]] + Without(attrs[1..], name)
  }

  /** `[name]` when the attribute is present, nothing otherwise. */
  function NameIf(present: bool, name: string): seq<string> {
    if present then [name] else []
  }

  lemma {:induction false} ValueOfAppend(a: seq<Attr>, b: seq<Attr>, name: string)
    ensures ValueOf(a + b, name) == if ValueOf(a, name).Some? then ValueOf(a, name) else ValueOf(b, name)
  {
    if a != [] {
      assert (a + b)[0] == a[0];
      assert (a + b)[1..] == a[1..] + b;
      ValueOfAppend(a[1..], b, name);
    } else {
      assert a + b == b;
    }
  }

  /** The first of four attribute lists that holds `name` decides its value. */
  lemma ValueOfAppend4(a: seq<Attr>, b: seq<Attr>, c: seq<Attr>, d: seq<Attr>, name: string)
    ensures ValueOf(a + b + c + d, name) ==
      if ValueOf(a, name).Some? then ValueOf(a, name)
      else if ValueOf(b, name).Some? then ValueOf(b, name)
      else if ValueOf(c, name).Some? then ValueOf(c, name)
      else ValueOf(d, name)
  {
    ValueOfAppend(a + b + c, d, name);
    ValueOfAppend(a + b, c, name);
    ValueOfAppend(a, b, name);
  }

  lemma {:induction false} WithoutAppend(a: seq<Attr>, b: seq<Attr>, name: string)
    ensures Without(a + b, name) == Without(a, name) + Without(b, name)
  {
    if a != [] {
      assert (a + b)[0] == a[0];
      assert (a + b)[1..] == a[1..] + b;
      WithoutAppend(a[1..], b, name);
    } else {
      assert a + b == b;
    }
  }

  lemma {:induction false} AttrsTextAppend(a: seq<Attr>, b: seq<Attr>)
    ensures AttrsText(a + b) == AttrsText(a) + AttrsText(b)
  {
    if a != [] {
      assert (a + b)[0] == a[0];
      assert (a + b)[1..] == a[1..] + b;
      AttrsTextAppend(a[1..], b);
    } else {
      assert a + b == b;
    }
  }

  lemma {:induction false} NamesAppend(a: seq<Attr>, b: seq<Attr>)
    ensures Names(a + b) == Names(a) + Names(b)
  {
    if a == [] {
      assert a + b == b;
    } else {
      assert (a + b)[0] == a[0] && (a + b)[1..] == a[1..] + b;
      NamesAppend(a[1..], b);
    }
  }

  lemma NamesAppend4(a: seq<Attr>, b: seq<Attr>, c: seq<Attr>, d: seq<Attr>)
    ensures Names(a + b + c + d) == Names(a) + Names(b) + Names(c) + Names(d)
  {
    NamesAppend(a + b + c, d);
    NamesAppend(a + b, c);
    NamesAppend(a, b);
  }

  lemma WellFormedAttrsAppend(a: seq<Attr>, b: seq<Attr>)
    requires WellFormedAttrs(a) && WellFormedAttrs(b)
    ensures WellFormedAttrs(a + b)
  {
    forall i | 0 <= i < |a + b|
      ensures WellFormedAttr((a + b)[i])
    {
      if i < |a| {
        assert (a + b)[i] == a[i];
      } else {
        assert (a + b)[i] == b[i - |a|];
      }
    }
  }

  /** Regrouping a list of five parts whose second and third come as one. */
  lemma Flatten<T>(a: seq<T>, b: seq<T>, c: seq<T>, d: seq<T>, e: seq<T>)
    ensures a + (b + c) + d + e == a + b + c + d + e
  {
  }
}
