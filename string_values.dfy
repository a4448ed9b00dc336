// String values: a typed wrapper around a value whose back-end type is a string, with
// concatenation, substrings and lower-casing that fold constants and otherwise emit the
// matching JavaScript call.

module StringValues {
  import opened Wrappers
  import opened Strings
  import JS = JavaScript
  import opened Values

  /** A string value always wraps a delegate. */
  type StringValue = v: Value<string> | v.Wrapper? witness Wrapper(Plain(JS.Code("")))

  /** A string constant, printed as a JavaScript string literal. */
  function OfLiteral(text: string): (v: Value<string>)
    ensures v.Wrapper?
    ensures ConstantValueOf(v) == Some(text) && AssertStatic(v) == Some(text)
    ensures CategoryOf(v) == Constant && AsExpr(v) == JS.StringLiteral(text)
  {
    Wrapper(ConstantValue(text, JS.StringLiteral(text)))
  }

  /** Any expression as a string value: a string value is returned as it is, anything else is wrapped. */
  function OfTerm(t: Term<string>): (v: StringValue)
    ensures t.Val? && t.v.Wrapper? ==> v == t.v
    ensures CategoryOf(v) == CategoryOf(Of(t)) && AsExpr(v) == AsExpr(Of(t))
    ensures ConstantValueOf(v) == ConstantValueOf(Of(t)) && VariableValueOf(v) == VariableValueOf(Of(t))
  {
    if t.Val? && t.v.Wrapper? then t.v else Wrapper(Of(t))
  }

  lemma LiteralsAreConstants()
    ensures forall text: string :: CategoryOf(OfLiteral(text)) == Constant
    ensures forall text: string :: VariableValueOf(OfLiteral(text)) == Some(Yields(text))
  {
  }

  /**
   * `self` followed by `that`: constants are concatenated (the right one through `show`, its
   * string form), anything else becomes a JavaScript `+`; the category follows the table.
   */
  function Plus<R>(self: StringValue, that: Term<R>, show: R -> string): (r: StringValue)
    ensures ConstantValueOf(self).Some? && ConstantValueOf(Of(that)).Some? ==>
              ConstantValueOf(r) == Some(ConstantValueOf(self).value + show(ConstantValueOf(Of(that)).value))
    ensures CategoryOf(r) == Combine(CategoryOf(self), CategoryOf(Of(that)))
    ensures ConstantValueOf(self).None? || ConstantValueOf(Of(that)).None? ==> AsExpr(r) == JS.Plus(AsExpr(self), AsExpr(Of(that)))
    ensures VariableValueOf(self).Some? && VariableValueOf(Of(that)).Some? ==>
              VariableValueOf(r).Some?
              && (VariableValueOf(r).value.Yields? <==> VariableValueOf(self).value.Yields? && VariableValueOf(Of(that)).value.Yields?)
              && (VariableValueOf(r).value.Yields? ==>
                    VariableValueOf(r).value.v == VariableValueOf(self).value.v + show(VariableValueOf(Of(that)).value.v))
  {
    LiteralsAreConstants();
    QueriesAgree(self);
    QueriesAgree(Of(that));
    var op := (l: string, rv: R) => l + show(rv);
    MapWithFollowsTheTable(self, Of(that), OfLiteral, op, (a, b) => JS.Plus(a, b));
    MapWithSupplies(self, Of(that), OfLiteral, op, (a, b) => JS.Plus(a, b));
    Wrapper(MapWith(self, Of(that), OfLiteral, op, (a, b) => JS.Plus(a, b)))
  }

  /** The text from index `begin` on, or `None` where the index is out of bounds. */
  function Suffix(c: string, begin: int): (r: Option<string>)
    ensures r.Some? <==> 0 <= begin <= |c|
    ensures r.Some? ==> |r.value| == |c| - begin && c == c[..begin] + r.value
  {
    if 0 <= begin <= |c| then Some(c[begin..]) else None
  }

  /** The text between `from` and `to`, or `None` where the bounds are out of order or range. */
  function Between(c: string, from: int, to: int): (r: Option<string>)
    ensures r.Some? <==> 0 <= from <= to <= |c|
    ensures r.Some? ==> |r.value| == to - from && c == c[..from] + r.value + c[to..]
  {
    if 0 <= from <= to <= |c| then Some(c[from..to]) else None
  }

  /** The string value from index `begin` on; `None` where a constant is too short. */
  function Substring(self: StringValue, begin: int): (r: Option<StringValue>)
    ensures ConstantValueOf(self).Some? ==>
              (r.Some? <==> 0 <= begin <= |ConstantValueOf(self).value|)
              && (r.Some? ==> ConstantValueOf(r.value) == Some(ConstantValueOf(self).value[begin..]))
    ensures ConstantValueOf(self).None? ==>
              r.Some? && CategoryOf(r.value) == CategoryOf(self)
              && AsExpr(r.value) == JS.MethodCall(AsExpr(self), "substring", [JS.NumberLiteral(begin)])
    ensures ConstantValueOf(self).None? && VariableValueOf(self).Some? ==>
              VariableValueOf(r.value) == Some(Then(VariableValueOf(self).value, c => Suffix(c, begin)))
  {
    var m := Map(self, c => Suffix(c, begin), OfLiteral,
                 js => JS.MethodCall(js, "substring", [JS.NumberLiteral(begin)]));
    if m.None? then None else Some(OfTerm(Val(m.value)))
  }

  /** The string value between `from` and `to`; `None` where a constant is out of range. */
  function Slice(self: StringValue, from: int, to: int): (r: Option<StringValue>)
    ensures ConstantValueOf(self).Some? ==>
              (r.Some? <==> 0 <= from <= to <= |ConstantValueOf(self).value|)
              && (r.Some? ==> ConstantValueOf(r.value) == Some(ConstantValueOf(self).value[from..to]))
    ensures ConstantValueOf(self).None? ==>
              r.Some? && CategoryOf(r.value) == CategoryOf(self)
              && AsExpr(r.value) == JS.MethodCall(AsExpr(self), "slice", [JS.NumberLiteral(from), JS.NumberLiteral(to)])
    ensures ConstantValueOf(self).None? && VariableValueOf(self).Some? ==>
              VariableValueOf(r.value) == Some(Then(VariableValueOf(self).value, c => Between(c, from, to)))
  {
    var m := Map(self, c => Between(c, from, to), OfLiteral,
                 js => JS.MethodCall(js, "slice", [JS.NumberLiteral(from), JS.NumberLiteral(to)]));
    if m.None? then None else Some(OfTerm(Val(m.value)))
  }

  /** The lower-cased string value: folded on a constant, a `toLowerCase()` call otherwise; the category never changes. */
  function ToLowerCase(self: StringValue): (r: StringValue)
    ensures ConstantValueOf(self).Some? ==> ConstantValueOf(r) == Some(ToLower(ConstantValueOf(self).value))
    ensures CategoryOf(r) == CategoryOf(self)
    ensures ConstantValueOf(self).None? ==> AsExpr(r) == JS.MethodCall(AsExpr(self), "toLowerCase", [])
    ensures ConstantValueOf(self).None? && VariableValueOf(self).Some? ==>
              VariableValueOf(r) == Some(Then(VariableValueOf(self).value, c => Some(ToLower(c))))
  {
    var m := Map(self, c => Some(ToLower(c)), OfLiteral, js => JS.MethodCall(js, "toLowerCase", []));
    OfTerm(Val(m.value))
  }

  /** A supplied string too short for the requested suffix still prints; only its back-end value fails. */
  lemma SubstringOfSuppliedIsLazy(s: string, js: JS.Expr, begin: int)
    requires begin > |s|
    ensures Substring(Wrapper(Supplied(Yields(s), js)), begin).Some?
    ensures AssertStatic(Substring(Wrapper(Supplied(Yields(s), js)), begin).value).None?
  {
    var r := Substring(Wrapper(Supplied(Yields(s), js)), begin).value;
    assert VariableValueOf(r) == Some(Throws);
    QueriesAgree(r);
  }
}
