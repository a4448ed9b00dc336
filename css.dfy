// Style sheets: class names and class lists (which are also the `class` attribute of an
// element), selectors built from class names, and rules made of properties.

module Css {
  import opened Wrappers
  import opened Strings
  import opened JavaScript
  import opened UiValues

  // ---------------------------------------------------------------------------------------
  // Class names and class lists
  // ---------------------------------------------------------------------------------------

  datatype ClassName = ClassName(name: UiValue<string>)

  /** A single class name, or several created by chaining `and`. */
  datatype ClassList = Single(className: ClassName) | MultiClass(names: seq<UiValue<string>>)

  function NamedClass(name: string): (c: ClassName)
    ensures c.name == OfString(name)
  {
    ClassName(OfString(name))
  }

  /** The names of a class list, in order. */
  function Names(l: ClassList): seq<UiValue<string>>
  {
    match l
    case Single(c) => [c.name]
    case MultiClass(names) => names
  }

  /** The class list with `that` added at the end. */
  function And(l: ClassList, that: ClassName): (r: ClassList)
    ensures r.MultiClass? && Names(r) == Names(l) + [that.name]
  {
    match l
    case Single(c) => MultiClass([c.name, that.name])
    case MultiClass(names) => MultiClass(names + [that.name])
  }

  /** Every class list is the `class` attribute. */
  function AttributeName(l: ClassList): string
  {
    "class"
  }

  /** The names separated by single spaces, folded from the left; `None` for an empty list. */
  function AttributeValue(l: ClassList): (r: Option<UiValue<string>>)
    ensures r.Some? <==> |Names(l)| > 0
  {
    match l
    case Single(c) => Some(c.name)
    case MultiClass(names) => if |names| == 0 then None else Some(SpaceSeparated(names))
  }

  /** The left fold `((n0 + " ") + n1 + " ") + ...` of a non-empty list of names. */
  function SpaceSeparated(names: seq<UiValue<string>>): UiValue<string>
    requires |names| > 0
  {
    if |names| == 1 then names[0]
    else UiValues.Concat(UiValues.Concat(SpaceSeparated(names[..|names| - 1]), OfString(" "), (s: string) => s),
                names[|names| - 1], (s: string) => s)
  }

  predicate AllConstant(names: seq<UiValue<string>>)
  {
    forall i :: 0 <= i < |names| ==> names[i].Constant?
  }

  function Constants(names: seq<UiValue<string>>): (r: seq<string>)
    requires AllConstant(names)
    ensures |r| == |names| && forall i :: 0 <= i < |names| ==> r[i] == names[i].constant
  {
    seq(|names|, i requires 0 <= i < |names| && names[i].Constant? => names[i].constant)
  }

  /** The class attribute is a constant exactly when every name is, and then it is the names joined by spaces. */
  lemma {:induction false} SpaceSeparatedConstants(names: seq<UiValue<string>>)
    requires |names| > 0
    ensures SpaceSeparated(names).Constant? <==> AllConstant(names)
    ensures AllConstant(names) ==> SpaceSeparated(names).constant == Join(Constants(names), " ")
  {
    if |names| > 1 {
      var init := names[..|names| - 1];
      SpaceSeparatedConstants(init);
      assert AllConstant(names) <==> AllConstant(init) && names[|names| - 1].Constant?;
      if AllConstant(names) {
        assert Constants(names) == Constants(init) + [names[|names| - 1].constant];
        JoinSnoc(Constants(init), names[|names| - 1].constant, " ");
      }
    }
  }

  // ---------------------------------------------------------------------------------------
  // Class names from an enum
  // ---------------------------------------------------------------------------------------

  /** The class for an enum constant: its name in lower case. */
  function EnumClass<E>(key: E, name: E -> string): (c: ClassName)
    ensures c.name == OfString(ToLower(name(key)))
  {
    NamedClass(ToLower(name(key)))
  }

  /** One class per enum constant, in declaration order. */
  function EnumClasses<E>(constants: seq<E>, name: E -> string): (r: seq<ClassName>)
    ensures |r| == |constants| && forall i :: 0 <= i < |constants| ==> r[i] == EnumClass(constants[i], name)
  {
    if |constants| == 0 then [] else [EnumClass(constants[0], name)] + EnumClasses(constants[1..], name)
  }

  /** The class for an enum value: as for its constant when it has one, otherwise lower-cased in the browser. */
  function EnumValueClass<E>(key: UiValue<E>, name: E -> string): (c: ClassName)
    ensures key.Constant? ==> c == EnumClass(key.constant, name)
    ensures key.Dynamic? ==> c.name == Dynamic(MethodCall(key.expr, "toLowerCase", []))
  {
    match key
    case Constant(k, _) => EnumClass(k, name)
    case Dynamic(e) => ClassName(Dynamic(MethodCall(e, "toLowerCase", [])))
  }

  /** The text of a class name: its constant, or else its JavaScript. */
  function ClassNameText(c: ClassName): (t: string)
    ensures c.name.Constant? ==> t == c.name.constant
  {
    match c.name
    case Constant(s, _) => s
    case Dynamic(e) => Format(e, map[])
  }

  // ---------------------------------------------------------------------------------------
  // Selectors
  // ---------------------------------------------------------------------------------------

  datatype Selector =
    | Nothing
    | ClassSelector(className: ClassName)
    | Either(left: Selector, right: Selector)
    | Child(parent: Selector, child: Selector)
    | After(base: Selector)
    | Before(base: Selector)

  /** `this, that`; nothing or anything is that thing. */
  function Or(l: Selector, r: Selector): (s: Selector)
    ensures l.Nothing? ==> s == r
    ensures !l.Nothing? ==> s == Either(l, r)
  {
    if l.Nothing? then r else Either(l, r)
  }

  /** The selector text, `None` where the source throws: nothing, or a class name that is not constant. */
  function RenderSelector(s: Selector): (r: Option<string>)
    ensures s.Nothing? ==> r.None?
    ensures s.ClassSelector? ==> (r.Some? <==> s.className.name.Constant?)
    ensures s.ClassSelector? && r.Some? ==> r.value == "." + s.className.name.constant
  {
    match s
    case Nothing => None
    case ClassSelector(c) => (match AssertStatic(c.name) case Some(n) => Some("." + n) case None => None)
    case Either(l, r) => (match (RenderSelector(l), RenderSelector(r))
                          case (Some(a), Some(b)) => Some(a + ", " + b)
                          case _ => None)
    case Child(p, c) => (match (RenderSelector(p), RenderSelector(c))
                         case (Some(a), Some(b)) => Some(a + " " + b)
                         case _ => None)
    case After(b) => (match RenderSelector(b) case Some(a) => Some(a + "::after") case None => None)
    case Before(b) => (match RenderSelector(b) case Some(a) => Some(a + "::before") case None => None)
  }

  /** How the combinators print, given that their parts print. */
  lemma CombinatorsRender(l: Selector, r: Selector, a: string, b: string)
    requires RenderSelector(l) == Some(a) && RenderSelector(r) == Some(b)
    ensures RenderSelector(Or(l, r)) == Some(a + ", " + b)
    ensures RenderSelector(Child(l, r)) == Some(a + " " + b)
    ensures RenderSelector(After(l)) == Some(a + "::after")
    ensures RenderSelector(Before(l)) == Some(a + "::before")
  {
  }

  /** Any selector built on top of nothing fails to print, except `Or`, which drops it. */
  lemma NothingOnlyVanishesInOr(s: Selector)
    ensures RenderSelector(Or(Nothing, s)) == RenderSelector(s)
    ensures RenderSelector(Child(Nothing, s)).None? && RenderSelector(After(Nothing)).None?
  {
  }

  // ---------------------------------------------------------------------------------------
  // Properties and rules
  // ---------------------------------------------------------------------------------------

  datatype Property = Property(name: string, value: string)

  /** One indented declaration line. */
  function PropertyText(p: Property): (t: string)
    ensures StartsWith(t, "  " + p.name + ": ") && EndsWith(t, ";\n")
  {
    var t := "  " + p.name + ": " + p.value + ";\n";
    assert t[..|"  " + p.name + ": "|] == "  " + p.name + ": ";
    assert t[|t| - 2..] == ";\n";
    t
  }

  function PropertiesText(props: seq<Property>): (t: string)
    ensures |props| == 0 ==> t == ""
  {
    if |props| == 0 then "" else PropertyText(props[0]) + PropertiesText(props[1..])
  }

  /** The selector, then the properties in order inside braces. */
  function Rule(selector: Selector, props: seq<Property>): (r: Option<string>)
    ensures r.Some? <==> RenderSelector(selector).Some?
    ensures r.Some? ==> r.value == RenderSelector(selector).value + " {\n" + PropertiesText(props) + "}\n"
  {
    match RenderSelector(selector)
    case Some(s) => Some(s + " {\n" + PropertiesText(props) + "}\n")
    case None => None
  }

  lemma {:induction false} PropertiesTextAppend(ps: seq<Property>, qs: seq<Property>)
    ensures PropertiesText(ps + qs) == PropertiesText(ps) + PropertiesText(qs)
  {
    if |ps| == 0 {
      assert ps + qs == qs;
    } else {
      assert (ps + qs)[1..] == ps[1..] + qs;
      PropertiesTextAppend(ps[1..], qs);
    }
  }
}
