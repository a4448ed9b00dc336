// The HTML tree: escaped text, elements with attributes, contents and `onload` code, and
// attribute-only tags; escaping, quoting, attributes and rendering to text.

module Markup {
  import opened Wrappers
  import opened Strings
  import opened JavaScript
  import opened UiValues
  import Css

  // ---------------------------------------------------------------------------------------
  // Attributes
  // ---------------------------------------------------------------------------------------

  /** An attribute with a name and a string value, or a class list (the `class` attribute). */
  datatype Attribute = Attr(name: string, value: UiValue<string>) | Classes(classes: Css.ClassList)

  function AttributeName(a: Attribute): (n: string)
    ensures a.Classes? ==> n == "class"
  {
    match a
    case Attr(name, _) => name
    case Classes(l) => Css.AttributeName(l)
  }

  /** The value; `None` where the source throws (an empty class list). */
  function AttributeValue(a: Attribute): (v: Option<UiValue<string>>)
    ensures a.Attr? ==> v == Some(a.value)
    ensures a.Classes? ==> v == Css.AttributeValue(a.classes)
  {
    match a
    case Attr(_, value) => Some(value)
    case Classes(l) => Css.AttributeValue(l)
  }

  /** An attribute with exactly the given name and value. */
  function AttributeOf(name: string, value: UiValue<string>): (a: Attribute)
    ensures AttributeName(a) == name && AttributeValue(a) == Some(value)
  {
    Attr(name, value)
  }

  /** An attribute whose value is the constant `value`. */
  function AttributeOfString(name: string, value: string): (a: Attribute)
    ensures AttributeName(a) == name && AttributeValue(a).Some?
    ensures AssertStatic(AttributeValue(a).value) == Some(value)
  {
    AttributeOf(name, OfString(value))
  }

  /** The text of a JavaScript fragment where no declaration is allowed: an expression without `;`. */
  function ScriptText(f: Fragment): (r: Option<string>)
    ensures f.Expression? ==> r == Some(Format(f.e, map[]))
    ensures f.Statement? ==> r == FormatStatement(f.s, map[])
  {
    match f
    case Expression(e) => Some(Format(e, map[]))
    case Statement(s) => FormatStatement(s, map[])
  }

  /** An attribute holding script text as a constant, such as an event handler; `None` where the script cannot print. */
  function AttributeOfScript(name: string, script: Fragment): (a: Option<Attribute>)
    ensures a.Some? <==> ScriptText(script).Some?
    ensures a.Some? ==> AttributeName(a.value) == name && AttributeValue(a.value) == Some(OfString(ScriptText(script).value))
  {
    match ScriptText(script)
    case Some(text) => Some(AttributeOf(name, OfString(text)))
    case None => None
  }

  /** The statement setting the attribute on the element `elt`; `None` where its value is missing. */
  function AttributeCreate(a: Attribute, elt: Expr): (s: Option<Stmt>)
    ensures s.Some? <==> AttributeValue(a).Some?
    ensures s.Some? ==> s.value == ExprStatement(MethodCall(elt, "setAttribute",
                                      [StringLiteral(AttributeName(a)), ToExpression(AttributeValue(a).value)]))
  {
    match AttributeValue(a)
    case Some(v) => Some(ExprStatement(MethodCall(elt, "setAttribute", [StringLiteral(AttributeName(a)), ToExpression(v)])))
    case None => None
  }

  // ---------------------------------------------------------------------------------------
  // Escaping
  // ---------------------------------------------------------------------------------------

  /** Text escaped for HTML: `&` first, then `<`, then `>`. */
  function Escape(text: string): (t: string)
    ensures '<' !in t && '>' !in t
  {
    Replace(Replace(Replace(text, '&', "&amp;"), '<', "&lt;"), '>', "&gt;")
  }

  /** The escape of a single character. */
  function EscapeChar(c: char): string
  {
    if c == '&' then "&amp;" else if c == '<' then "&lt;" else if c == '>' then "&gt;" else [c]
  }

  /** Replacing one character after the other is the same as escaping each character on its own. */
  lemma {:induction false} EscapeIsPerCharacter(text: string)
    ensures Escape(text) == MapChars(text, EscapeChar)
  {
    if |text| > 0 {
      var head, tail := text[..1], text[1..];
      assert text == head + tail;
      ReplaceAppend(head, tail, '&', "&amp;");
      var a1, a2 := Replace(head, '&', "&amp;"), Replace(tail, '&', "&amp;");
      ReplaceAppend(a1, a2, '<', "&lt;");
      var b1, b2 := Replace(a1, '<', "&lt;"), Replace(a2, '<', "&lt;");
      ReplaceAppend(b1, b2, '>', "&gt;");
      EscapeHead(text[0]);
      EscapeIsPerCharacter(tail);
    }
  }

  lemma EscapeHead(c: char)
    ensures Escape([c]) == EscapeChar(c)
  {
    ReplaceSingle(c, '&', "&amp;");
    if c == '&' {
      assert '<' !in "&amp;" && '>' !in "&amp;";
    } else {
      ReplaceSingle(c, '<', "&lt;");
      if c == '<' {
        assert '>' !in "&lt;";
      } else {
        ReplaceSingle(c, '>', "&gt;");
      }
    }
  }

  lemma ReplaceSingle(c: char, x: char, r: string)
    ensures Replace([c], x, r) == if c == x then r else [c]
  {
    assert [c][1..] == [];
  }

  /** Reading the three entities back. */
  function Unescape(s: string): (t: string)
    decreases |s|
  {
    if |s| == 0 then ""
    else if StartsWith(s, "&amp;") then "&" + Unescape(s[5..])
    else if StartsWith(s, "&lt;") then "<" + Unescape(s[4..])
    else if StartsWith(s, "&gt;") then ">" + Unescape(s[4..])
    else [s[0]] + Unescape(s[1..])
  }

  /** Escaping loses nothing: the text is recovered from its escape. */
  lemma UnescapeEscape(text: string)
    ensures Unescape(Escape(text)) == text
  {
    EscapeIsPerCharacter(text);
    UnescapeMapChars(text);
  }

  lemma {:induction false} UnescapeMapChars(text: string)
    ensures Unescape(MapChars(text, EscapeChar)) == text
  {
    if |text| > 0 {
      UnescapeMapChars(text[1..]);
      UnescapeOneCharacter(text[0], MapChars(text[1..], EscapeChar));
      assert text == [text[0]] + text[1..];
    }
  }

  lemma UnescapeOneCharacter(c: char, rest: string)
    ensures Unescape(EscapeChar(c) + rest) == [c] + Unescape(rest)
  {
    if c == '&' {
      UnescapeEntity("&amp;", '&', rest);
    } else if c == '<' {
      UnescapeEntity("&lt;", '<', rest);
    } else if c == '>' {
      UnescapeEntity("&gt;", '>', rest);
    } else {
      UnescapePlain(c, rest);
    }
  }

  lemma UnescapeEntity(entity: string, c: char, rest: string)
    requires (entity, c) == ("&amp;", '&') || (entity, c) == ("&lt;", '<') || (entity, c) == ("&gt;", '>')
    ensures Unescape(entity + rest) == [c] + Unescape(rest)
  {
    var s := entity + rest;
    assert s[..|entity|] == entity && s[|entity|..] == rest;
    assert s[1] == entity[1];
  }

  lemma UnescapePlain(c: char, rest: string)
    requires c != '&'
    ensures Unescape([c] + rest) == [c] + Unescape(rest)
  {
    var s := [c] + rest;
    assert s[0] == c && s[1..] == rest;
  }

  /** The escape of a value's text as the source writes it: `&` becomes `amp;`, without its ampersand. */
  function EscapeValueAsWritten(v: UiValue<string>): (r: Option<string>)
    ensures r.Some? <==> v.Constant?
  {
    match AssertStatic(v)
    case Some(text) => Some(Replace(Replace(Replace(text, '&', "amp;"), '<', "&lt;"), '>', "&gt;"))
    case None => None
  }

  /** As written, the texts `&` and `amp;` print the same, and neither prints as its string escape. */
  lemma EscapeValueAsWrittenLosesAmpersands()
    ensures EscapeValueAsWritten(OfString("&")) == EscapeValueAsWritten(OfString("amp;")) == Some("amp;")
    ensures Escape("&") == "&amp;" != "amp;"
  {
    var amp, word := "&", "amp;";
    ReplaceSingle('&', '&', "amp;");
    ReplaceSingle('&', '&', "&amp;");
    assert '&' !in word && '<' !in word && '>' !in word;
    assert '<' !in "&amp;" && '>' !in "&amp;";
  }

  /** The escape of a value's text, as for a plain string; `None` where the value is not constant. */
  function EscapeValue(v: UiValue<string>): (r: Option<string>)
    ensures r.Some? <==> v.Constant?
    ensures r.Some? ==> Unescape(r.value) == v.constant && '<' !in r.value && '>' !in r.value
  {
    match AssertStatic(v)
    case Some(text) => UnescapeEscape(text); Some(Escape(text))
    case None => None
  }

  /** Text for an attribute value between double quotes: `&` first, then `"`. */
  function Quote(text: string): (q: string)
    ensures |q| >= 2 && q[0] == '"' && q[|q| - 1] == '"'
    ensures '"' !in q[1..|q| - 1]
    ensures q[1..|q| - 1] == MapChars(text, QuoteChar)
  {
    var inner := Replace(Replace(text, '&', "&amp;"), '"', "&quot;");
    var q := "\"" + inner + "\"";
    assert q[1..|q| - 1] == inner;
    QuoteIsPerCharacter(text);
    q
  }

  /** The quoting of a single character. */
  function QuoteChar(c: char): string
  {
    if c == '&' then "&amp;" else if c == '"' then "&quot;" else [c]
  }

  lemma {:induction false} QuoteIsPerCharacter(text: string)
    ensures Replace(Replace(text, '&', "&amp;"), '"', "&quot;") == MapChars(text, QuoteChar)
  {
    if |text| > 0 {
      var head, tail := text[..1], text[1..];
      assert text == head + tail && head == [text[0]];
      ReplaceAppend(head, tail, '&', "&amp;");
      var a1, a2 := Replace(head, '&', "&amp;"), Replace(tail, '&', "&amp;");
      ReplaceAppend(a1, a2, '"', "&quot;");
      ReplaceSingle(text[0], '&', "&amp;");
      if text[0] == '&' {
        assert '"' !in "&amp;";
      } else {
        ReplaceSingle(text[0], '"', "&quot;");
      }
      QuoteIsPerCharacter(tail);
    }
  }

  /** Reading the two entities of a quoted text back. */
  function UnquoteText(s: string): string
    decreases |s|
  {
    if |s| == 0 then ""
    else if StartsWith(s, "&amp;") then "&" + UnquoteText(s[5..])
    else if StartsWith(s, "&quot;") then "\"" + UnquoteText(s[6..])
    else [s[0]] + UnquoteText(s[1..])
  }

  /** The text of a quoted attribute value: what lies between the quotes, entities read back. */
  function Unquote(q: string): string
    requires |q| >= 2
  {
    UnquoteText(q[1..|q| - 1])
  }

  /** Quoting loses nothing: the attribute text is recovered from its quoted form. */
  lemma UnquoteQuote(text: string)
    ensures Unquote(Quote(text)) == text
  {
    UnquoteMapChars(text);
  }

  lemma {:induction false} UnquoteMapChars(text: string)
    ensures UnquoteText(MapChars(text, QuoteChar)) == text
  {
    if |text| > 0 {
      UnquoteMapChars(text[1..]);
      UnquoteOneCharacter(text[0], MapChars(text[1..], QuoteChar));
      assert text == [text[0]] + text[1..];
    }
  }

  lemma UnquoteOneCharacter(c: char, rest: string)
    ensures UnquoteText(QuoteChar(c) + rest) == [c] + UnquoteText(rest)
  {
    if c == '&' {
      UnquoteEntity("&amp;", '&', rest);
    } else if c == '"' {
      UnquoteEntity("&quot;", '"', rest);
    } else {
      UnquotePlain(c, rest);
    }
  }

  lemma UnquoteEntity(entity: string, c: char, rest: string)
    requires (entity, c) == ("&amp;", '&') || (entity, c) == ("&quot;", '"')
    ensures UnquoteText(entity + rest) == [c] + UnquoteText(rest)
  {
    var s := entity + rest;
    assert s[..|entity|] == entity && s[|entity|..] == rest;
    assert s[1] == entity[1];
  }

  lemma UnquotePlain(c: char, rest: string)
    requires c != '&'
    ensures UnquoteText([c] + rest) == [c] + UnquoteText(rest)
  {
    var s := [c] + rest;
    assert s[0] == c && s[1..] == rest;
  }

  /** `name="value"` with the value quoted; `None` where the value is missing or not constant. */
  function RenderAttribute(a: Attribute): (r: Option<string>)
    ensures r.Some? <==> AttributeValue(a).Some? && AttributeValue(a).value.Constant?
    ensures r.Some? ==> r.value == AttributeName(a) + "=" + Quote(AttributeValue(a).value.constant)
  {
    match AttributeValue(a)
    case None => None
    case Some(v) =>
      match AssertStatic(v)
      case Some(text) => Some(AttributeName(a) + "=\"" + Replace(Replace(text, '&', "&amp;"), '"', "&quot;") + "\"")
      case None => None
  }

  /** The attributes rendered and separated by single spaces; `None` if any cannot render. */
  function RenderAttributes(attributes: seq<Attribute>): (r: Option<string>)
    ensures r.Some? <==> forall i :: 0 <= i < |attributes| ==> RenderAttribute(attributes[i]).Some?
    ensures r.Some? ==> r.value == Join(RenderedAttributes(attributes), " ")
  {
    if forall i :: 0 <= i < |attributes| ==> RenderAttribute(attributes[i]).Some?
    then Some(Join(RenderedAttributes(attributes), " "))
    else None
  }

  function RenderedAttributes(attributes: seq<Attribute>): (r: seq<string>)
    requires forall i :: 0 <= i < |attributes| ==> RenderAttribute(attributes[i]).Some?
    ensures |r| == |attributes|
    ensures forall i :: 0 <= i < |attributes| ==> r[i] == RenderAttribute(attributes[i]).value
  {
    seq(|attributes|, i requires 0 <= i < |attributes| && RenderAttribute(attributes[i]).Some? => RenderAttribute(attributes[i]).value)
  }

  // ---------------------------------------------------------------------------------------
  // The tree
  // ---------------------------------------------------------------------------------------

  datatype Html =
    | EmptyHtml                                    // Html.EMPTY
    | EscapedText(text: string)                    // Html.escape(String)
    | EscapedValue(value: UiValue<string>)         // Html.escape(Value)
    | Element(name: string, attributes: seq<Attribute>, contents: seq<Html>, onload: seq<Fragment>)
    | Tag(name: string, attributes: seq<Attribute>)

  /** The empty fragment equals exactly the empty fragments. */
  predicate IsEmpty(h: Html)
  {
    h == EmptyHtml
  }

  /** The start tag: `<name`, the attributes after a space if there are any, then `>`. */
  function StartTag(name: string, attributes: seq<Attribute>): (r: Option<string>)
    ensures r.Some? <==> RenderAttributes(attributes).Some?
    ensures |attributes| == 0 ==> r == Some("<" + name + ">")
    ensures |attributes| > 0 && r.Some? ==> r.value == "<" + name + " " + RenderAttributes(attributes).value + ">"
  {
    if |attributes| == 0 then Some("<" + name + ">")
    else match RenderAttributes(attributes)
      case Some(text) => Some("<" + name + " " + text + ">")
      case None => None
  }

  /** The HTML text; `None` where the source throws (a value or attribute that is not constant). */
  function ToString(h: Html): (r: Option<string>)
    decreases h
    ensures h.EmptyHtml? ==> r == Some("")
    ensures h.EscapedText? ==> r == Some(Escape(h.text))
    ensures h.EscapedValue? ==> r == EscapeValue(h.value)
    ensures h.Tag? ==> r == StartTag(h.name, h.attributes)
    ensures h.Element? ==> (r.Some? <==> StartTag(h.name, h.attributes).Some? && ContentsToString(h.contents).Some?)
    ensures h.Element? && r.Some? ==>
              r.value == StartTag(h.name, h.attributes).value + ContentsToString(h.contents).value + "</" + h.name + ">"
  {
    match h
    case EmptyHtml => Some("")
    case EscapedText(text) => Some(Escape(text))
    case EscapedValue(v) => EscapeValue(v)
    case Tag(name, attributes) => StartTag(name, attributes)
    case Element(name, attributes, contents, _) =>
      match (StartTag(name, attributes), ContentsToString(contents))
      case (Some(open), Some(inner)) => Some(open + inner + "</" + name + ">")
      case _ => None
  }

  /** The contents rendered one after the other. */
  function ContentsToString(contents: seq<Html>): (r: Option<string>)
    decreases contents
    ensures |contents| == 0 ==> r == Some("")
  {
    if |contents| == 0 then Some("")
    else
      match (ToString(contents[0]), ContentsToString(contents[1..]))
      case (Some(h), Some(t)) => Some(h + t)
      case _ => None
  }

  /** Rendering escaped text never opens a tag. */
  lemma EscapedTextHasNoTags(text: string)
    ensures ToString(EscapedText(text)).Some?
    ensures '<' !in ToString(EscapedText(text)).value && '>' !in ToString(EscapedText(text)).value
    ensures Unescape(ToString(EscapedText(text)).value) == text
  {
    UnescapeEscape(text);
  }
}
