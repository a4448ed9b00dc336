// Shorthands for common elements: links, buttons, images, inputs, divisions, paragraphs,
// spans and unnumbered lists.

module Components {
  import opened Wrappers
  import opened JavaScript
  import opened UiValues
  import opened Markup
  import opened Elements
  import Css

  /** `e` is the element called `name` with these attributes, made of these fragments. */
  predicate Made(e: Html, name: string, attributes: seq<Attribute>, contents: seq<HtmlFragment>)
  {
    e.Element? && e.name == name && e.attributes == attributes
    && e.contents == Flatten(contents) && e.onload == OnLoadOf(contents)
  }

  /** The nodes given one by one, as the variable-argument constructors receive them. */
  function Nodes(contents: seq<Html>): (r: seq<HtmlFragment>)
    ensures |r| == |contents| && forall i :: 0 <= i < |contents| ==> r[i] == Node(contents[i])
  {
    if |contents| == 0 then [] else [Node(contents[0])] + Nodes(contents[1..])
  }

  /** A link whose only attribute is `href`. */
  function A(href: string, contents: seq<HtmlFragment>): (e: Html)
    ensures Made(e, "a", [AttributeOfString("href", href)], contents)
    ensures GetAttribute(e.attributes, "href") == Some(AttributeOfString("href", href))
  {
    ElementOf("a", [AttributeOfString("href", href)], contents)
  }

  /** A styled link: the class list, then `href`. */
  function StyledA(style: Css.ClassList, href: string, contents: seq<HtmlFragment>): (e: Html)
    ensures Made(e, "a", [Classes(style), AttributeOfString("href", href)], contents)
    ensures GetAttribute(e.attributes, "href") == Some(AttributeOfString("href", href))
  {
    ElementOf("a", [Classes(style), AttributeOfString("href", href)], contents)
  }

  /** A link with the given attributes followed by `href`. */
  function AWithAttributes(attributes: seq<Attribute>, href: string, contents: seq<HtmlFragment>): (e: Html)
    ensures Made(e, "a", attributes + [AttributeOfString("href", href)], contents)
    ensures e.attributes[..|attributes|] == attributes
  {
    ElementOf("a", attributes + [AttributeOfString("href", href)], contents)
  }

  /** The `onclick` attribute running `onclick`. */
  function OnClick(onclick: Expr): (a: Attribute)
    ensures AttributeOfScript("onclick", Expression(onclick)) == Some(a)
  {
    AttributeOf("onclick", OfString(Format(onclick, map[])))
  }

  /** A styled button: the class list, then `onclick`; its content is the escaped text. */
  function StyledButton(css: Css.ClassList, text: string, onclick: Expr): (e: Html)
    ensures Made(e, "button", [Classes(css), OnClick(onclick)], [Node(EscapedText(text))])
    ensures e.contents == [EscapedText(text)] && e.onload == []
  {
    ElementOf("button", [Classes(css), OnClick(onclick)], [Node(EscapedText(text))])
  }

  /** A button whose only attribute is `onclick`; its content is the escaped text. */
  function Button(text: string, onclick: Expr): (e: Html)
    ensures Made(e, "button", [OnClick(onclick)], [Node(EscapedText(text))])
    ensures e.contents == [EscapedText(text)] && e.onload == []
  {
    ElementOf("button", [OnClick(onclick)], [Node(EscapedText(text))])
  }

  /** A styled image: the class list, then `src`. */
  function StyledImg(style: Css.ClassList, src: UiValue<string>): (h: Html)
    ensures h == Tag("img", [Classes(style), AttributeOf("src", src)])
  {
    Tag("img", [Classes(style), AttributeOf("src", src)])
  }

  /** An image whose only attribute is `src`. */
  function Img(src: string): (h: Html)
    ensures h == Tag("img", [AttributeOfString("src", src)])
  {
    Tag("img", [AttributeOfString("src", src)])
  }

  /** An input element with the given attributes and no contents. */
  function Input(attributes: seq<Attribute>): (e: Html)
    ensures e == Element("input", attributes, [], [])
  {
    ElementOf("input", attributes, [])
  }

  function Div(attributes: seq<Attribute>, contents: seq<HtmlFragment>): (e: Html)
    ensures Made(e, "div", attributes, contents)
  {
    ElementOf("div", attributes, contents)
  }

  function P(attributes: seq<Attribute>, contents: seq<HtmlFragment>): (e: Html)
    ensures Made(e, "p", attributes, contents)
  {
    ElementOf("p", attributes, contents)
  }

  /** A span whose only attribute is the class list. */
  function StyledSpan(style: Css.ClassList, contents: seq<HtmlFragment>): (e: Html)
    ensures Made(e, "span", [Classes(style)], contents)
  {
    ElementOf("span", [Classes(style)], contents)
  }

  function Span(attributes: seq<Attribute>, contents: seq<HtmlFragment>): (e: Html)
    ensures Made(e, "span", attributes, contents)
  {
    ElementOf("span", attributes, contents)
  }

  // ---------------------------------------------------------------------------------------
  // Lists
  // ---------------------------------------------------------------------------------------

  /** A list item holding one node, with the given attributes. */
  function Li(attributes: seq<Attribute>, h: Html): (e: Html)
    ensures e == ElementOf("li", attributes, [Node(h)])
    ensures e.contents == [h] && e.onload == (if h.Element? then h.onload else [])
  {
    ElementOf("li", attributes, [Node(h)])
  }

  /** One list item per entry, in order. */
  function Items<T>(list: seq<T>, renderer: T -> Html): (r: seq<HtmlFragment>)
    ensures |r| == |list| && forall i :: 0 <= i < |list| ==> r[i] == Node(Li([], renderer(list[i])))
  {
    seq(|list|, i requires 0 <= i < |list| => Node(Li([], renderer(list[i]))))
  }

  /** An unnumbered list with one item per entry, in order. */
  function Ul<T>(list: seq<T>, renderer: T -> Html): (e: Html)
    ensures e.Element? && e.name == "ul" && e.attributes == []
    ensures |e.contents| == |list|
    ensures forall i :: 0 <= i < |list| ==> e.contents[i] == Li([], renderer(list[i]))
  {
    var items := Items(list, renderer);
    FlattenNodes(items);
    ElementOf("ul", [], items)
  }

  lemma {:induction false} FlattenNodes(items: seq<HtmlFragment>)
    requires forall i :: 0 <= i < |items| ==> items[i].Node?
    ensures |Flatten(items)| == |items|
    ensures forall i :: 0 <= i < |items| ==> Flatten(items)[i] == items[i].html
  {
    if |items| > 0 {
      FlattenNodes(items[1..]);
    }
  }

  /** The rendered entries that are not empty, in order. */
  function NonEmpty(hs: seq<Html>): (r: seq<Html>)
    ensures |r| <= |hs|
    ensures forall h :: h in r ==> h in hs && !IsEmpty(h)
    ensures forall h :: h in hs && !IsEmpty(h) ==> h in r
  {
    if |hs| == 0 then []
    else if IsEmpty(hs[0]) then NonEmpty(hs[1..])
    else [hs[0]] + NonEmpty(hs[1..])
  }

  /** Filtering keeps the order: the kept entries of two lists are those of the first, then those of the second. */
  lemma {:induction false} NonEmptyAppend(a: seq<Html>, b: seq<Html>)
    ensures NonEmpty(a + b) == NonEmpty(a) + NonEmpty(b)
  {
    if |a| == 0 {
      assert a + b == b;
    } else {
      assert (a + b)[0] == a[0] && (a + b)[1..] == a[1..] + b;
      NonEmptyAppend(a[1..], b);
    }
  }

  /** Each entry is kept exactly as many times as it occurs, unless it renders empty. */
  lemma {:induction false} NonEmptyCounts(hs: seq<Html>, h: Html)
    ensures multiset(NonEmpty(hs))[h] == if IsEmpty(h) then 0 else multiset(hs)[h]
  {
    if |hs| > 0 {
      NonEmptyCounts(hs[1..], h);
      assert hs == [hs[0]] + hs[1..];
      assert multiset(hs) == multiset([hs[0]]) + multiset(hs[1..]);
    }
  }

  /** When nothing renders empty, nothing is dropped. */
  lemma {:induction false} NonEmptyKeepsAll(hs: seq<Html>)
    requires forall i :: 0 <= i < |hs| ==> !IsEmpty(hs[i])
    ensures NonEmpty(hs) == hs
  {
    if |hs| > 0 {
      NonEmptyKeepsAll(hs[1..]);
    }
  }

  function Rendered<T>(list: seq<T>, renderer: T -> Html): (r: seq<Html>)
    ensures |r| == |list| && forall i :: 0 <= i < |list| ==> r[i] == renderer(list[i])
  {
    if |list| == 0 then [] else [renderer(list[0])] + Rendered(list[1..], renderer)
  }

  function StyledItems(hs: seq<Html>, liStyle: Css.ClassList): (r: seq<HtmlFragment>)
    ensures |r| == |hs| && forall i :: 0 <= i < |hs| ==> r[i] == Node(Li([Classes(liStyle)], hs[i]))
  {
    seq(|hs|, i requires 0 <= i < |hs| => Node(Li([Classes(liStyle)], hs[i])))
  }

  /**
   * A styled unnumbered list: the entries that render to something other than the empty
   * fragment, in order, each in an item carrying `liStyle`.
   */
  function StyledUl<T>(ulStyle: Css.ClassList, list: seq<T>, liStyle: Css.ClassList, renderer: T -> Html): (e: Html)
    ensures e.Element? && e.name == "ul" && e.attributes == [Classes(ulStyle)]
    ensures |e.contents| == |NonEmpty(Rendered(list, renderer))|
    ensures forall i :: 0 <= i < |e.contents| ==>
              e.contents[i] == Li([Classes(liStyle)], NonEmpty(Rendered(list, renderer))[i])
              && !IsEmpty(e.contents[i].contents[0])
  {
    var kept := NonEmpty(Rendered(list, renderer));
    var items := StyledItems(kept, liStyle);
    FlattenNodes(items);
    forall i | 0 <= i < |kept| ensures !IsEmpty(kept[i]) { assert kept[i] in kept; }
    ElementOf("ul", [Classes(ulStyle)], items)
  }
}
