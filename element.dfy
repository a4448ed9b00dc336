// Elements: the immutable updates of an element (attributes set, added or replaced, contents
// replaced, `onload` code added), attribute lookup, and how an element gathers the `onload`
// code of the elements it contains.

module Elements {
  import opened Wrappers
  import opened JavaScript
  import opened Markup
  import LazyBuilders

  /** Content as given to an element: a single node, or a group of nodes that is flattened. */
  datatype HtmlFragment = Node(html: Html) | Group(items: seq<Html>)

  /** The nodes of the fragments, in order. */
  function Flatten(contents: seq<HtmlFragment>): (r: seq<Html>)
    ensures |contents| == 0 ==> r == []
    ensures |contents| == 1 && contents[0].Node? ==> r == [contents[0].html]
  {
    if |contents| == 0 then []
    else (match contents[0] case Node(h) => [h] case Group(items) => items) + Flatten(contents[1..])
  }

  lemma {:induction false} FlattenAppend(a: seq<HtmlFragment>, b: seq<HtmlFragment>)
    ensures Flatten(a + b) == Flatten(a) + Flatten(b)
  {
    if |a| == 0 {
      assert a + b == b;
    } else {
      assert (a + b)[0] == a[0];
      assert (a + b)[1..] == a[1..] + b;
      FlattenAppend(a[1..], b);
    }
  }

  /** A group of fragments is the group of their nodes. */
  function FragmentOf(parts: seq<HtmlFragment>): (f: HtmlFragment)
    ensures Flatten([f]) == Flatten(parts)
  {
    assert Flatten([Group(Flatten(parts))]) == Flatten(parts) + Flatten([]);
    Group(Flatten(parts))
  }

  /** The `onload` code of a fragment: that of an element given on its own, nothing otherwise. */
  function OnLoadOfFragment(f: HtmlFragment): seq<Fragment>
  {
    if f.Node? && f.html.Element? then f.html.onload else []
  }

  /** The `onload` code of every element given directly, in content order. */
  function OnLoadOf(contents: seq<HtmlFragment>): (r: seq<Fragment>)
    ensures |contents| == 0 ==> r == []
  {
    if |contents| == 0 then [] else OnLoadOfFragment(contents[0]) + OnLoadOf(contents[1..])
  }

  lemma {:induction false} OnLoadOfSnoc(contents: seq<HtmlFragment>, f: HtmlFragment)
    ensures OnLoadOf(contents + [f]) == OnLoadOf(contents) + OnLoadOfFragment(f)
  {
    if |contents| == 0 {
      assert contents + [f] == [f];
    } else {
      assert (contents + [f])[1..] == contents[1..] + [f];
      OnLoadOfSnoc(contents[1..], f);
    }
  }

  /** Code in a fragment is kept only when the fragment is an element itself, not a group holding one. */
  lemma GroupedElementsLoseTheirOnLoad(e: Html)
    requires e.Element?
    ensures OnLoadOf([Node(e)]) == e.onload
    ensures OnLoadOf([Group([e])]) == []
  {
  }

  /**
   * `onload` followed by the `onload` of every element given directly in `contents`,
   * collected through a lazy builder.
   */
  method ExtractOnLoad(onload: seq<Fragment>, contents: seq<HtmlFragment>) returns (r: seq<Fragment>)
    ensures r == onload + OnLoadOf(contents)
  {
    var builder := LazyBuilders.Persistent(onload);
    var i := 0;
    while i < |contents|
      invariant 0 <= i <= |contents|
      invariant LazyBuilders.Build(builder) == onload + OnLoadOf(contents[..i])
      invariant builder.Backed? ==> fresh(builder.builder)
    {
      var f := contents[i];
      OnLoadOfSnoc(contents[..i], f);
      assert contents[..i + 1] == contents[..i] + [f];
      if f.Node? && f.html.Element? {
        builder := LazyBuilders.AddEach(builder, f.html.onload);
      }
      i := i + 1;
    }
    assert contents[..i] == contents;
    r := LazyBuilders.Build(builder);
  }

  /** An element made of fragments: their nodes as contents and their elements' `onload` code as its own. */
  function ElementOf(name: string, attributes: seq<Attribute>, contents: seq<HtmlFragment>): (e: Html)
    ensures e.Element? && e.name == name && e.attributes == attributes
    ensures e.contents == Flatten(contents) && e.onload == OnLoadOf(contents)
  {
    Element(name, attributes, Flatten(contents), OnLoadOf(contents))
  }

  // ---------------------------------------------------------------------------------------
  // Attributes
  // ---------------------------------------------------------------------------------------

  /** The first attribute called `name`, if any. */
  function GetAttribute(attributes: seq<Attribute>, name: string): (r: Option<Attribute>)
    ensures r.None? <==> forall i :: 0 <= i < |attributes| ==> AttributeName(attributes[i]) != name
    ensures r.Some? ==> exists i :: 0 <= i < |attributes| && attributes[i] == r.value
                                    && forall j :: 0 <= j < i ==> AttributeName(attributes[j]) != name
    ensures r.Some? ==> AttributeName(r.value) == name
  {
    if |attributes| == 0 then None
    else if AttributeName(attributes[0]) == name then Some(attributes[0])
    else
      var r := GetAttribute(attributes[1..], name);
      if r.Some? then
        var i :| 0 <= i < |attributes[1..]| && attributes[1..][i] == r.value
                 && forall j :: 0 <= j < i ==> AttributeName(attributes[1..][j]) != name;
        assert attributes[i + 1] == r.value;
        r
      else r
  }

  /** The attributes not called `name`, in their order. */
  function Others(attributes: seq<Attribute>, name: string): (r: seq<Attribute>)
    ensures |r| <= |attributes|
  {
    if |attributes| == 0 then []
    else if AttributeName(attributes[0]) == name then Others(attributes[1..], name)
    else [attributes[0]] + Others(attributes[1..], name)
  }

  /** The attributes kept are exactly those of another name. */
  lemma {:induction false} OthersAreTheOtherAttributes(attributes: seq<Attribute>, name: string)
    ensures forall a :: a in Others(attributes, name) <==> a in attributes && AttributeName(a) != name
  {
    if |attributes| > 0 {
      OthersAreTheOtherAttributes(attributes[1..], name);
      assert attributes == [attributes[0]] + attributes[1..];
    }
  }

  /** The attributes once `a` is set: every attribute with its name removed, `a` last. */
  function Replaced(attributes: seq<Attribute>, a: Attribute): seq<Attribute>
  {
    Others(attributes, AttributeName(a)) + [a]
  }

  lemma {:induction false} OthersSnoc(attributes: seq<Attribute>, a: Attribute, name: string)
    ensures Others(attributes + [a], name) == Others(attributes, name) + (if AttributeName(a) == name then [] else [a])
  {
    if |attributes| == 0 {
      assert attributes + [a] == [a];
    } else {
      assert (attributes + [a])[1..] == attributes[1..] + [a];
      OthersSnoc(attributes[1..], a, name);
    }
  }

  /** The element with `a` set, replacing every attribute of the same name (a loop over the attributes). */
  method WithAttribute(e: Html, a: Attribute) returns (r: Html)
    requires e.Element?
    ensures r == Element(e.name, Replaced(e.attributes, a), e.contents, e.onload)
  {
    var kept := KeepOthers(e.attributes, AttributeName(a));
    r := WithAttributes(e, kept + [a]);
  }

  /** The attributes whose name is not `name`, in order. */
  method KeepOthers(attributes: seq<Attribute>, name: string) returns (kept: seq<Attribute>)
    ensures kept == Others(attributes, name)
  {
    kept := [];
    var i := 0;
    while i < |attributes|
      invariant 0 <= i <= |attributes|
      invariant kept == Others(attributes[..i], name)
    {
      OthersSnoc(attributes[..i], attributes[i], name);
      assert attributes[..i + 1] == attributes[..i] + [attributes[i]];
      if AttributeName(attributes[i]) != name {
        kept := kept + [attributes[i]];
      }
      i := i + 1;
    }
    assert attributes[..i] == attributes;
  }

  /** After setting `a`, looking up its name finds `a`, and it is the only attribute of that name. */
  lemma SetAttributeIsFound(attributes: seq<Attribute>, a: Attribute)
    ensures GetAttribute(Replaced(attributes, a), AttributeName(a)) == Some(a)
    ensures forall i :: 0 <= i < |Replaced(attributes, a)| - 1 ==> AttributeName(Replaced(attributes, a)[i]) != AttributeName(a)
  {
    var r := Replaced(attributes, a);
    var others := Others(attributes, AttributeName(a));
    OthersAreTheOtherAttributes(attributes, AttributeName(a));
    forall i | 0 <= i < |r| - 1
      ensures AttributeName(r[i]) != AttributeName(a)
    {
      assert r[i] == others[i] && others[i] in others;
    }
    GetAttributeOfLast(r, a);
  }

  lemma {:induction false} GetAttributeOfLast(attributes: seq<Attribute>, a: Attribute)
    requires |attributes| > 0 && attributes[|attributes| - 1] == a
    requires forall i :: 0 <= i < |attributes| - 1 ==> AttributeName(attributes[i]) != AttributeName(a)
    ensures GetAttribute(attributes, AttributeName(a)) == Some(a)
  {
    if |attributes| > 1 {
      GetAttributeOfLast(attributes[1..], a);
    }
  }

  /** Setting an attribute leaves the lookup of every other name as it was. */
  lemma {:induction false} SetAttributeKeepsOthers(attributes: seq<Attribute>, a: Attribute, name: string)
    requires name != AttributeName(a)
    ensures GetAttribute(Replaced(attributes, a), name) == GetAttribute(attributes, name)
    ensures Others(Replaced(attributes, a), AttributeName(a)) == Others(attributes, AttributeName(a))
  {
    OthersLookup(attributes, AttributeName(a), name);
    LookupPastTheEnd(Others(attributes, AttributeName(a)), a, name);
    OthersSnoc(Others(attributes, AttributeName(a)), a, AttributeName(a));
    OthersIdempotent(attributes, AttributeName(a));
  }

  lemma {:induction false} OthersLookup(attributes: seq<Attribute>, removed: string, name: string)
    requires name != removed
    ensures GetAttribute(Others(attributes, removed), name) == GetAttribute(attributes, name)
  {
    if |attributes| > 0 {
      OthersLookup(attributes[1..], removed, name);
    }
  }

  lemma {:induction false} LookupPastTheEnd(attributes: seq<Attribute>, a: Attribute, name: string)
    requires name != AttributeName(a)
    ensures GetAttribute(attributes + [a], name) == GetAttribute(attributes, name)
  {
    if |attributes| == 0 {
      assert GetAttribute([a], name) == GetAttribute([a][1..], name);
    } else {
      assert (attributes + [a])[1..] == attributes[1..] + [a];
      LookupPastTheEnd(attributes[1..], a, name);
    }
  }

  lemma {:induction false} OthersIdempotent(attributes: seq<Attribute>, name: string)
    ensures Others(Others(attributes, name), name) == Others(attributes, name)
  {
    if |attributes| > 0 {
      OthersIdempotent(attributes[1..], name);
    }
  }

  /** The element with `a` added after its attributes; attributes of the same name stay. */
  function PlusAttribute(e: Html, a: Attribute): (r: Html)
    requires e.Element?
    ensures r.Element? && r.attributes == e.attributes + [a]
    ensures r.name == e.name && r.contents == e.contents && r.onload == e.onload
  {
    WithAttributes(e, e.attributes + [a])
  }

  /** Adding keeps the first attribute of a name as the one found, unlike setting. */
  lemma PlusAttributeKeepsTheFirst(e: Html, a: Attribute)
    requires e.Element? && GetAttribute(e.attributes, AttributeName(a)).Some?
    ensures GetAttribute(PlusAttribute(e, a).attributes, AttributeName(a)) == GetAttribute(e.attributes, AttributeName(a))
  {
    PlusKeepsLookup(e.attributes, a, AttributeName(a));
  }

  lemma {:induction false} PlusKeepsLookup(attributes: seq<Attribute>, a: Attribute, name: string)
    requires GetAttribute(attributes, name).Some?
    ensures GetAttribute(attributes + [a], name) == GetAttribute(attributes, name)
  {
    assert |attributes| > 0;
    assert (attributes + [a])[0] == attributes[0];
    if AttributeName(attributes[0]) != name {
      assert (attributes + [a])[1..] == attributes[1..] + [a];
      PlusKeepsLookup(attributes[1..], a, name);
    }
  }

  // ---------------------------------------------------------------------------------------
  // Copies
  // ---------------------------------------------------------------------------------------

  /** The same element with other attributes. */
  function WithAttributes(e: Html, attributes: seq<Attribute>): (r: Html)
    requires e.Element?
    ensures r.Element? && r.attributes == attributes
    ensures r.name == e.name && r.contents == e.contents && r.onload == e.onload
  {
    Element(e.name, attributes, e.contents, e.onload)
  }

  /** The same element with other contents: their `onload` code is added after the element's own. */
  function WithContents(e: Html, contents: seq<HtmlFragment>): (r: Html)
    requires e.Element?
    ensures r.Element? && r.name == e.name && r.attributes == e.attributes
    ensures r.contents == Flatten(contents) && r.onload == e.onload + OnLoadOf(contents)
  {
    Element(e.name, e.attributes, Flatten(contents), e.onload + OnLoadOf(contents))
  }

  /** The same element with one more piece of `onload` code at the end. */
  function WithOnLoad(e: Html, code: Fragment): (r: Html)
    requires e.Element?
    ensures r.Element? && r.name == e.name && r.attributes == e.attributes && r.contents == e.contents
    ensures r.onload == e.onload + [code]
  {
    Element(e.name, e.attributes, e.contents, e.onload + [code])
  }

  /** Code added to a child before it is placed in a parent ends up in the parent's `onload`. */
  lemma ChildOnLoadReachesTheParent(parent: Html, child: Html, code: Fragment)
    requires parent.Element? && child.Element?
    ensures WithContents(parent, [Node(WithOnLoad(child, code))]).onload == parent.onload + child.onload + [code]
  {
    assert OnLoadOf([Node(WithOnLoad(child, code))]) == child.onload + [code] + OnLoadOf([]);
  }
}
