// The older, simpler value interface used by the HTML and CSS builders: a value is either a
// constant (with the literal that prints it) or a JavaScript expression.

module UiValues {
  import opened Wrappers
  import opened Strings
  import opened JavaScript

  datatype UiValue<T> = Constant(constant: T, literal: Expr) | Dynamic(expr: Expr)

  /** The JavaScript expression that stands for the value. */
  function ToExpression<T>(v: UiValue<T>): Expr
  {
    match v
    case Constant(_, literal) => literal
    case Dynamic(e) => e
  }

  /** The constant, or `None` where the source throws because the value is dynamic. */
  function AssertStatic<T>(v: UiValue<T>): (r: Option<T>)
    ensures r.Some? <==> v.Constant?
    ensures r.Some? ==> r.value == v.constant
  {
    match v
    case Constant(c, _) => Some(c)
    case Dynamic(_) => None
  }

  // ---------------------------------------------------------------------------------------
  // Factories
  // ---------------------------------------------------------------------------------------

  function OfString(text: string): (v: UiValue<string>)
    ensures AssertStatic(v) == Some(text) && ToExpression(v) == StringLiteral(text)
  {
    Constant(text, StringLiteral(text))
  }

  /** An enum constant, printed as the string literal of its name. */
  function OfEnum<E>(e: E, name: E -> string): (v: UiValue<E>)
    ensures AssertStatic(v) == Some(e) && ToExpression(v) == StringLiteral(name(e))
  {
    Constant(e, StringLiteral(name(e)))
  }

  /** A whole number, printed in decimal. */
  function OfLong(n: int): (v: UiValue<int>)
    ensures AssertStatic(v) == Some(n) && ToExpression(v) == Literal(IntToString(n))
  {
    Constant(n, NumberLiteral(n))
  }

  function OfExpression<T>(e: Expr): (v: UiValue<T>)
    ensures AssertStatic(v).None? && ToExpression(v) == e
  {
    Dynamic(e)
  }

  // ---------------------------------------------------------------------------------------
  // Concatenation
  // ---------------------------------------------------------------------------------------

  /**
   * `lhs` followed by `rhs`: two constants give the constant concatenation (the right one in
   * its string form `show`), anything else the JavaScript `lhs + rhs`.
   */
  function Concat<R>(lhs: UiValue<string>, rhs: UiValue<R>, show: R -> string): (r: UiValue<string>)
    ensures r.Constant? <==> lhs.Constant? && rhs.Constant?
    ensures r.Constant? ==> r == OfString(lhs.constant + show(rhs.constant))
    ensures r.Dynamic? ==> ToExpression(r) == Plus(ToExpression(lhs), ToExpression(rhs))
  {
    if lhs.Constant? && rhs.Constant? then OfString(lhs.constant + show(rhs.constant))
    else Dynamic(Plus(ToExpression(lhs), ToExpression(rhs)))
  }

  /** Concatenating constants prints as the literal of the joined text. */
  lemma ConcatOfConstantsPrints(a: string, c: string, b: Bindings)
    ensures Format(ToExpression(Concat(OfString(a), OfString(c), (s: string) => s)), b) == "'" + EscapeText(a + c) + "'"
    ensures EscapeText(a + c) == EscapeText(a) + EscapeText(c)
  {
    ReplaceAppend(a, c, '\\', "\\\\");
    ReplaceAppend(Replace(a, '\\', "\\\\"), Replace(c, '\\', "\\\\"), '\'', "\\'");
  }

  // ---------------------------------------------------------------------------------------
  // Constant equality
  // ---------------------------------------------------------------------------------------

  /** A constant equals another value exactly when that is a constant with an equal constant; literals are ignored. */
  predicate ConstantEquals<T(==)>(a: UiValue<T>, b: UiValue<T>)
    requires a.Constant?
  {
    b.Constant? && a.constant == b.constant
  }

  function ConstantHash<T>(a: UiValue<T>, hash: T -> int): int
    requires a.Constant?
  {
    hash(a.constant)
  }

  lemma ConstantEqualityIgnoresLiterals<T>(c: T, l1: Expr, l2: Expr, hash: T -> int)
    ensures ConstantEquals(Constant(c, l1), Constant(c, l2))
    ensures ConstantHash(Constant(c, l1), hash) == ConstantHash(Constant(c, l2), hash)
  {
  }
}
