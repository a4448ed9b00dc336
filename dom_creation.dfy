// The JavaScript that builds an HTML tree in the browser.  Each element or tag is bound to a
// new symbol by a `let`; its attributes are set one by one, each child is created and
// appended to it, and a continuation receives it.  Symbols are numbered from a counter that
// is threaded through the creation (the source's global symbol counter).

module DomCreation {
  import opened Wrappers
  import opened JavaScript
  import opened Markup

  /** What to do with the created node: the fragment that uses it. */
  type Continuation = Expr -> Fragment

  /** The continuation of a child: append the child to `parent`. */
  function AppendTo(parent: Expr): Continuation
  {
    childRef => Expression(MethodCall(parent, "appendChild", [childRef]))
  }

  /** Every attribute of the list can be set (no empty class list). */
  predicate Settable(attributes: seq<Attribute>)
  {
    forall i :: 0 <= i < |attributes| ==> AttributeValue(attributes[i]).Some?
  }

  /** The setters of the attributes on `elt`, in order. */
  function Setters(attributes: seq<Attribute>, elt: Expr): (r: seq<Fragment>)
    requires Settable(attributes)
    ensures |r| == |attributes|
    ensures forall i :: 0 <= i < |attributes| ==> r[i] == Statement(AttributeCreate(attributes[i], elt).value)
  {
    if |attributes| == 0 then [] else [Statement(AttributeCreate(attributes[0], elt).value)] + Setters(attributes[1..], elt)
  }

  /** Every attribute in the tree can be set. */
  predicate Creatable(h: Html)
    decreases h
  {
    match h
    case Element(_, attributes, contents, _) => Settable(attributes) && AllCreatable(contents)
    case Tag(_, attributes) => Settable(attributes)
    case _ => true
  }

  predicate AllCreatable(contents: seq<Html>)
    decreases contents
  {
    forall i :: 0 <= i < |contents| ==> Creatable(contents[i])
  }

  /**
   * The statement creating `h` and passing it to `continuation`, with symbols numbered from
   * `next` on, and the first number left unused.
   */
  function Creation(h: Html, continuation: Continuation, next: SymbolId): (r: (Stmt, SymbolId))
    requires Creatable(h)
    decreases h
    ensures next <= r.1
    ensures h.EmptyHtml? ==> r == (Raw(""), next)
    ensures h.EscapedText? ==> r == (Of(continuation(CreateTextNode(StringLiteral(h.text)))), next)
    ensures h.EscapedValue? ==> r == (Of(continuation(CreateTextNode(UiValues.ToExpression(h.value)))), next)
    ensures h.Tag? ==> r == (TagCreation(h.name, h.attributes, continuation, next), next + 1)
    ensures h.Element? ==> r.0.Let? && r.0.value == CreateElement(h.name) && r.0.symbol == next && next < r.1
  {
    match h
    case EmptyHtml => (Raw(""), next)
    case EscapedText(text) => (Of(continuation(CreateTextNode(StringLiteral(text)))), next)
    case EscapedValue(v) => (Of(continuation(CreateTextNode(UiValues.ToExpression(v)))), next)
    case Tag(name, attributes) => (TagCreation(name, attributes, continuation, next), next + 1)
    case Element(name, attributes, contents, _) =>
      var (children, after) := ChildCreations(contents, Symbol(next), next + 1);
      (Let(CreateElement(name), next, SeqOf(Setters(attributes, Symbol(next)) + children + [Statement(Of(continuation(Symbol(next))))])),
       after)
  }

  /** The creations of the children, each appended to `parent`, numbered one after the other. */
  function ChildCreations(contents: seq<Html>, parent: Expr, next: SymbolId): (r: (seq<Fragment>, SymbolId))
    requires AllCreatable(contents)
    decreases contents
    ensures |r.0| == |contents| && next <= r.1
  {
    if |contents| == 0 then ([], next)
    else
      var (previous, middle) := ChildCreations(contents[..|contents| - 1], parent, next);
      assert contents[|contents| - 1] in contents;
      var (last, after) := Creation(contents[|contents| - 1], AppendTo(parent), middle);
      (previous + [Statement(last)], after)
  }

  /** The number of symbols a tree takes: one per element and per tag. */
  function NodeCount(h: Html): nat
    decreases h
  {
    match h
    case Element(_, _, contents, _) => 1 + NodeCountAll(contents)
    case Tag(_, _) => 1
    case _ => 0
  }

  function NodeCountAll(contents: seq<Html>): nat
    decreases contents
  {
    if |contents| == 0 then 0
    else
      assert contents[|contents| - 1] in contents;
      NodeCountAll(contents[..|contents| - 1]) + NodeCount(contents[|contents| - 1])
  }

  /** Creating a tree takes exactly one fresh symbol per element and tag, whatever the continuation. */
  lemma {:induction false} CreationTakesOneSymbolPerNode(h: Html, continuation: Continuation, next: SymbolId)
    requires Creatable(h)
    decreases h
    ensures Creation(h, continuation, next).1 == next + NodeCount(h)
  {
    if h.Element? {
      ChildCreationsTakeOneSymbolPerNode(h.contents, Symbol(next), next + 1);
    }
  }

  lemma {:induction false} ChildCreationsTakeOneSymbolPerNode(contents: seq<Html>, parent: Expr, next: SymbolId)
    requires AllCreatable(contents)
    decreases contents
    ensures ChildCreations(contents, parent, next).1 == next + NodeCountAll(contents)
  {
    if |contents| > 0 {
      var init := contents[..|contents| - 1];
      ChildCreationsTakeOneSymbolPerNode(init, parent, next);
      assert contents[|contents| - 1] in contents;
      CreationTakesOneSymbolPerNode(contents[|contents| - 1], AppendTo(parent), ChildCreations(init, parent, next).1);
    }
  }

  /** An element's `let` body: its setters, then one statement per child, then the continuation. */
  lemma ElementCreationShape(h: Html, continuation: Continuation, next: SymbolId)
    requires h.Element? && Creatable(h)
    ensures var s := Creation(h, continuation, next).0;
            var statements := Setters(h.attributes, Symbol(next)) + ChildCreations(h.contents, Symbol(next), next + 1).0
                              + [Statement(Of(continuation(Symbol(next))))];
            |statements| == |h.attributes| + |h.contents| + 1
            && s.letBody == SeqOf(statements)
            && statements[|statements| - 1] == Statement(Of(continuation(Symbol(next))))
  {
  }

  /** The creation of `h`, built by the loops of the source. */
  method Create(h: Html, continuation: Continuation, next: SymbolId) returns (s: Stmt, after: SymbolId)
    requires Creatable(h)
    decreases h, 1
    ensures (s, after) == Creation(h, continuation, next)
  {
    match h
    case EmptyHtml =>
      s, after := Raw(""), next;
    case EscapedText(text) =>
      s, after := Of(continuation(CreateTextNode(StringLiteral(text)))), next;
    case EscapedValue(v) =>
      s, after := Of(continuation(CreateTextNode(UiValues.ToExpression(v)))), next;
    case Tag(name, attributes) =>
      s := TagCreate(name, attributes, continuation, next);
      after := next + 1;
    case Element(name, attributes, contents, _) =>
      s, after := ElementCreate(h, continuation, next);
  }

  /** A tag: `let` of the new element, its setters, then the continuation. */
  function TagCreation(name: string, attributes: seq<Attribute>, continuation: Continuation, elt: SymbolId): (s: Stmt)
    requires Settable(attributes)
    ensures s.Let? && s.value == CreateElement(name) && s.symbol == elt
    ensures s.letBody == SeqOf(Setters(attributes, Symbol(elt)) + [Statement(Of(continuation(Symbol(elt))))])
  {
    Let(CreateElement(name), elt, SeqOf(Setters(attributes, Symbol(elt)) + [Statement(Of(continuation(Symbol(elt))))]))
  }

  /** A tag's creation has one setter per attribute, in order, then exactly one continuation statement. */
  lemma TagCreationShape(name: string, attributes: seq<Attribute>, continuation: Continuation, elt: SymbolId)
    requires Settable(attributes)
    ensures var statements := Setters(attributes, Symbol(elt)) + [Statement(Of(continuation(Symbol(elt))))];
            TagCreation(name, attributes, continuation, elt).letBody == SeqOf(statements)
            && |statements| == |attributes| + 1
            && (forall i :: 0 <= i < |attributes| ==> statements[i] == Statement(AttributeCreate(attributes[i], Symbol(elt)).value))
            && statements[|attributes|] == Statement(Of(continuation(Symbol(elt))))
  {
  }

  /** The setters collected in a list, then the continuation. */
  method TagCreate(name: string, attributes: seq<Attribute>, continuation: Continuation, elt: SymbolId) returns (s: Stmt)
    requires Settable(attributes)
    ensures s == TagCreation(name, attributes, continuation, elt)
  {
    var statements := SetterStatements(attributes, Symbol(elt));
    s := Let(CreateElement(name), elt, SeqOf(statements + [Statement(Of(continuation(Symbol(elt))))]));
  }

  method SetterStatements(attributes: seq<Attribute>, elt: Expr) returns (statements: seq<Fragment>)
    requires Settable(attributes)
    ensures statements == Setters(attributes, elt)
  {
    statements := [];
    var i := 0;
    while i < |attributes|
      invariant 0 <= i <= |attributes|
      invariant statements == Setters(attributes[..i], elt)
    {
      assert attributes[i] == attributes[..i + 1][i];
      assert AttributeValue(attributes[i]).Some?;
      SettersSnoc(attributes[..i], attributes[i], elt);
      assert attributes[..i + 1] == attributes[..i] + [attributes[i]];
      statements := statements + [Statement(AttributeCreate(attributes[i], elt).value)];
      i := i + 1;
    }
    assert attributes[..i] == attributes;
  }

  lemma {:induction false} SettersSnoc(attributes: seq<Attribute>, a: Attribute, elt: Expr)
    requires Settable(attributes) && AttributeValue(a).Some?
    ensures Settable(attributes + [a])
    ensures Setters(attributes + [a], elt) == Setters(attributes, elt) + [Statement(AttributeCreate(a, elt).value)]
  {
    var all := attributes + [a];
    assert forall i :: 0 <= i < |attributes| ==> all[i] == attributes[i];
    assert all[|attributes|] == a;
    assert Settable(all);
    if |attributes| > 0 {
      assert all[1..] == attributes[1..] + [a];
      SettersSnoc(attributes[1..], a, elt);
    } else {
      assert all == [a];
    }
  }

  method ElementCreate(h: Html, continuation: Continuation, next: SymbolId) returns (s: Stmt, after: SymbolId)
    requires h.Element? && Creatable(h)
    decreases h, 0
    ensures (s, after) == Creation(h, continuation, next)
  {
    var elt := Symbol(next);
    var setters := SetterStatements(h.attributes, elt);
    var children: seq<Fragment> := [];
    after := next + 1;
    var j := 0;
    while j < |h.contents|
      invariant 0 <= j <= |h.contents|
      invariant (children, after) == ChildCreations(h.contents[..j], elt, next + 1)
    {
      assert h.contents[j] in h.contents;
      assert h.contents[..j + 1][..j] == h.contents[..j];
      var child, childAfter := Create(h.contents[j], AppendTo(elt), after);
      children := children + [Statement(child)];
      after := childAfter;
      j := j + 1;
    }
    assert h.contents[..j] == h.contents;
    s := Let(CreateElement(h.name), next, SeqOf(setters + children + [Statement(Of(continuation(elt)))]));
  }
}
