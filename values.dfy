// Values that are either known to the back end or only computed by JavaScript in the browser,
// and the four categories they fall into: constant, variable (supplied by the back end),
// time-dependent and other.

module Values {
  import opened Wrappers
  import opened JavaScript

  /** A back-end computation run on demand; `Throws` is one that fails when asked for its value. */
  datatype Supplier<T> = Yields(v: T) | Throws

  function Get<T>(s: Supplier<T>): (r: Option<T>)
    ensures r.Some? <==> s.Yields?
  {
    match s
    case Yields(v) => Some(v)
    case Throws => None
  }

  /** The supplier that applies `f` to what `s` yields, failing when either fails. */
  function Then<T, U>(s: Supplier<T>, f: T -> Option<U>): (r: Supplier<U>)
    ensures r.Yields? <==> s.Yields? && f(s.v).Some?
    ensures r.Yields? ==> r.v == f(s.v).value
  {
    match s
    case Yields(v) => (match f(v) case Some(u) => Yields(u) case None => Throws)
    case Throws => Throws
  }

  /** The supplier that combines what `l` and `r` yield with `op`. */
  function Both<T, R, O>(l: Supplier<T>, r: Supplier<R>, op: (T, R) -> O): (s: Supplier<O>)
    ensures s.Yields? <==> l.Yields? && r.Yields?
    ensures s.Yields? ==> s.v == op(l.v, r.v)
  {
    if l.Yields? && r.Yields? then Yields(op(l.v, r.v)) else Throws
  }

  /**
   * A value: a constant with its literal, a back-end supplied value with the JavaScript that
   * computes it in the browser, a time-dependent browser value, any other JavaScript expression,
   * or a typed wrapper (such as a string value) that forwards everything to its delegate.
   */
  datatype Value<T> =
    | ConstantValue(constant: T, literal: Expr)
    | Supplied(supplier: Supplier<T>, js: Expr)
    | TimeDependentValue(js: Expr)
    | Plain(js: Expr)
    | Wrapper(delegate: Value<T>)

  datatype Category = Constant | Variable | TimeDependent | Other

  /** A JavaScript expression, which may itself be a value. */
  datatype Term<T> = Js(e: Expr) | Val(v: Value<T>)

  // ---------------------------------------------------------------------------------------
  // Queries (a wrapper answers each of them as its delegate does)
  // ---------------------------------------------------------------------------------------

  /** The constant a value holds; a constant is never time-dependent. */
  function ConstantValueOf<T>(v: Value<T>): (r: Option<T>)
    ensures r.Some? ==> !IsTimeDependent(v)
  {
    match v
    case ConstantValue(c, _) => Some(c)
    case Wrapper(d) => ConstantValueOf(d)
    case _ => None
  }

  /** The back-end supplier; a constant acts as a supplier of itself. */
  function VariableValueOf<T>(v: Value<T>): (r: Option<Supplier<T>>)
    ensures ConstantValueOf(v).Some? ==> r == Some(Yields(ConstantValueOf(v).value))
  {
    match v
    case ConstantValue(c, _) => Some(Yields(c))
    case Supplied(s, _) => Some(s)
    case Wrapper(d) => VariableValueOf(d)
    case _ => None
  }

  predicate IsTimeDependent<T>(v: Value<T>)
  {
    match v
    case Supplied(_, _) => true
    case TimeDependentValue(_) => true
    case Wrapper(d) => IsTimeDependent(d)
    case _ => false
  }

  /** The back-end value, or `None` where the source throws. */
  function AssertStatic<T>(v: Value<T>): (r: Option<T>)
    ensures r.Some? ==> VariableValueOf(v).Some?
    ensures ConstantValueOf(v).Some? ==> r == ConstantValueOf(v)
  {
    match v
    case ConstantValue(c, _) => Some(c)
    case Supplied(s, _) => Get(s)
    case Wrapper(d) => AssertStatic(d)
    case _ => None
  }

  /** The JavaScript expression the value prints as. */
  function AsExpr<T>(v: Value<T>): Expr
  {
    match v
    case ConstantValue(_, literal) => literal
    case Supplied(_, js) => js
    case TimeDependentValue(js) => js
    case Plain(js) => js
    case Wrapper(d) => AsExpr(d)
  }

  /** The category, decided from the queries in the order constant, variable, time-dependent. */
  function CategoryOf<T>(v: Value<T>): Category
  {
    if ConstantValueOf(v).Some? then Constant
    else if VariableValueOf(v).Some? then Variable
    else if IsTimeDependent(v) then TimeDependent
    else Other
  }

  /** A constant has a variable value yielding the constant and is never time-dependent; a static value is constant or supplied. */
  lemma {:induction false} QueriesAgree<T>(v: Value<T>)
    ensures ConstantValueOf(v).Some? ==> VariableValueOf(v) == Some(Yields(ConstantValueOf(v).value)) && !IsTimeDependent(v)
    ensures AssertStatic(v).Some? <==> VariableValueOf(v).Some? && VariableValueOf(v).value.Yields?
    ensures AssertStatic(v).Some? ==> AssertStatic(v) == Get(VariableValueOf(v).value)
    ensures VariableValueOf(v).Some? && ConstantValueOf(v).None? ==> IsTimeDependent(v)
  {
    if v.Wrapper? {
      QueriesAgree(v.delegate);
    }
  }

  // ---------------------------------------------------------------------------------------
  // Factories
  // ---------------------------------------------------------------------------------------

  function Const<T>(c: T, literal: Expr): (v: Value<T>)
    ensures ConstantValueOf(v) == Some(c) && VariableValueOf(v) == Some(Yields(c))
    ensures AssertStatic(v) == Some(c) && !IsTimeDependent(v) && CategoryOf(v) == Constant
    ensures AsExpr(v) == literal
  {
    ConstantValue(c, literal)
  }

  function SuppliedOf<T>(s: Supplier<T>, js: Expr): (v: Value<T>)
    ensures ConstantValueOf(v).None? && VariableValueOf(v) == Some(s) && IsTimeDependent(v)
    ensures AssertStatic(v) == Get(s) && CategoryOf(v) == Variable && AsExpr(v) == js
  {
    Supplied(s, js)
  }

  function TimeDependentOf<T>(js: Expr): (v: Value<T>)
    ensures ConstantValueOf(v).None? && VariableValueOf(v).None? && IsTimeDependent(v)
    ensures AssertStatic(v).None? && CategoryOf(v) == TimeDependent && AsExpr(v) == js
  {
    TimeDependentValue(js)
  }

  /** A term as a value: a value is kept as it is, any other expression falls in the "other" category. */
  function Of<T>(t: Term<T>): (v: Value<T>)
    ensures t.Val? ==> v == t.v
    ensures t.Js? ==> CategoryOf(v) == Other && AssertStatic(v).None? && AsExpr(v) == t.e
  {
    match t
    case Js(e) => Plain(e)
    case Val(v) => v
  }

  /** An enum constant, printed as the string literal of its name. */
  function OfEnum<E>(e: E, name: E -> string): (v: Value<E>)
    ensures ConstantValueOf(v) == Some(e) && AsExpr(v) == StringLiteral(name(e))
  {
    ConstantValue(e, StringLiteral(name(e)))
  }

  // ---------------------------------------------------------------------------------------
  // Constant equality
  // ---------------------------------------------------------------------------------------

  /** Equality of a constant with another value: the other is a constant with an equal constant; literals are ignored. */
  predicate ConstantEquals<T(==)>(a: Value<T>, b: Value<T>)
    requires a.ConstantValue?
  {
    b.ConstantValue? && a.constant == b.constant
  }

  /** The hash of a constant is the hash of its constant alone. */
  function ConstantHash<T>(a: Value<T>, hash: T -> int): int
    requires a.ConstantValue?
  {
    hash(a.constant)
  }

  lemma ConstantEqualityIgnoresLiterals<T>(a: Value<T>, b: Value<T>, hash: T -> int)
    requires a.ConstantValue? && b.ConstantValue?
    ensures ConstantEquals(a, b) <==> ConstantEquals(b, a)
    ensures ConstantEquals(a, b) <==> ConstantEquals(Const(a.constant, b.literal), b)
    ensures ConstantEquals(a, b) ==> ConstantHash(a, hash) == ConstantHash(b, hash)
  {
  }

  // ---------------------------------------------------------------------------------------
  // Unary transformations
  // ---------------------------------------------------------------------------------------

  /**
   * `v` transformed: a constant by `f` and then `wrapper`, a supplied value lazily by `f`, and
   * any other value by `jsMapper` on its JavaScript.  `None` where `f` fails on a constant.
   */
  function Map<T, U>(v: Value<T>, f: T -> Option<U>, wrapper: U -> Value<U>, jsMapper: Expr -> Expr): (r: Option<Value<U>>)
    ensures r.None? <==> ConstantValueOf(v).Some? && f(ConstantValueOf(v).value).None?
    ensures ConstantValueOf(v).Some? && r.Some? ==> r.value == wrapper(f(ConstantValueOf(v).value).value)
    ensures ConstantValueOf(v).None? ==> r.Some? && CategoryOf(r.value) == CategoryOf(v)
                                         && AsExpr(r.value) == jsMapper(AsExpr(v))
    ensures ConstantValueOf(v).None? && VariableValueOf(v).Some? ==>
              VariableValueOf(r.value) == Some(Then(VariableValueOf(v).value, f))
  {
    match v
    case Wrapper(d) => Map(d, f, wrapper, jsMapper)
    case ConstantValue(c, _) => (match f(c) case Some(u) => Some(wrapper(u)) case None => None)
    case Supplied(s, js) => Some(Supplied(Then(s, f), jsMapper(js)))
    case TimeDependentValue(js) => Some(TimeDependentValue(jsMapper(js)))
    case Plain(js) => Some(Plain(jsMapper(js)))
  }

  lemma WrapperBuildsConstant<U>(wrapper: U -> Value<U>, u: U)
    requires forall x: U :: CategoryOf(wrapper(x)) == Constant
    ensures CategoryOf(wrapper(u)) == Constant
  {
  }

  lemma WrapperSupplies<U>(wrapper: U -> Value<U>, u: U)
    requires forall x: U :: VariableValueOf(wrapper(x)) == Some(Yields(x))
    ensures VariableValueOf(wrapper(u)) == Some(Yields(u))
  {
  }

  /** A transformation whose wrapper builds constants keeps every value in its category. */
  lemma MapKeepsCategory<T, U>(v: Value<T>, f: T -> Option<U>, wrapper: U -> Value<U>, jsMapper: Expr -> Expr)
    requires forall u: U :: CategoryOf(wrapper(u)) == Constant
    ensures Map(v, f, wrapper, jsMapper).Some? ==> CategoryOf(Map(v, f, wrapper, jsMapper).value) == CategoryOf(v)
  {
    var r := Map(v, f, wrapper, jsMapper);
    if ConstantValueOf(v).Some? && r.Some? {
      var u := f(ConstantValueOf(v).value).value;
      assert r.value == wrapper(u);
      WrapperBuildsConstant(wrapper, u);
    }
  }

  // ---------------------------------------------------------------------------------------
  // Binary combination and its category table
  // ---------------------------------------------------------------------------------------

  /** The category of a combination, row by row: C V T O / V V T T / T T T T / O T T O. */
  function Combine(a: Category, b: Category): (r: Category)
    ensures r == Constant <==> a == Constant && b == Constant
    ensures r == Variable <==> (a == Variable || b == Variable) && a in {Constant, Variable} && b in {Constant, Variable}
    ensures a == TimeDependent || b == TimeDependent ==> r == TimeDependent
    ensures r == Other <==> (a == Other || b == Other) && a in {Constant, Other} && b in {Constant, Other}
  {
    match (a, b)
    case (Constant, _) => b
    case (Variable, Constant) => Variable
    case (Variable, Variable) => Variable
    case (Variable, _) => TimeDependent
    case (TimeDependent, _) => TimeDependent
    case (Other, Constant) => Other
    case (Other, Other) => Other
    case (Other, _) => TimeDependent
  }

  /** The partial order behind the table: constant below variable and other, both below time-dependent. */
  predicate Below(a: Category, b: Category)
  {
    a == b || a == Constant || b == TimeDependent
  }

  lemma CombineIsTheLeastUpperBound(a: Category, b: Category, c: Category)
    ensures Combine(a, b) == Combine(b, a)
    ensures Combine(a, a) == a
    ensures Combine(Constant, a) == a && Combine(TimeDependent, a) == TimeDependent
    ensures Combine(Combine(a, b), c) == Combine(a, Combine(b, c))
    ensures Below(a, Combine(a, b)) && Below(b, Combine(a, b))
    ensures Below(a, c) && Below(b, c) ==> Below(Combine(a, b), c)
  {
  }

  /**
   * Two values combined by a wrapper (`self`): constants by `op` and then `wrapper`, a
   * variable with a variable or constant into a supplied value, and everything else into the
   * JavaScript `exprOp` builds from both sides, the right one unwrapped first.
   */
  function MapWith<T, R, O>(self: Value<T>, that: Value<R>, wrapper: O -> Value<O>, op: (T, R) -> O,
                            exprOp: (Expr, Expr) -> Expr): (r: Value<O>)
    requires self.Wrapper?
    ensures ConstantValueOf(self).Some? && ConstantValueOf(that).Some? ==>
              r == wrapper(op(ConstantValueOf(self).value, ConstantValueOf(that).value))
    ensures ConstantValueOf(self).None? && VariableValueOf(self).Some? && VariableValueOf(that).Some? ==>
              r == Supplied(Both(VariableValueOf(self).value, VariableValueOf(that).value, op),
                            exprOp(AsExpr(self), AsExpr(that)))
    ensures ConstantValueOf(self).None? || ConstantValueOf(that).None? ==> AsExpr(r) == exprOp(AsExpr(self), AsExpr(that))
    ensures ConstantValueOf(self).Some? && ConstantValueOf(that).None? ==> CategoryOf(r) == CategoryOf(that)
    ensures ConstantValueOf(self).Some? && ConstantValueOf(that).None? && VariableValueOf(that).Some? ==>
              VariableValueOf(r) == Some(Both(Yields(ConstantValueOf(self).value), VariableValueOf(that).value, op))
  {
    var thatUnwrapped := if that.Wrapper? then that.delegate else that;
    match ConstantValueOf(self)
    case Some(lc) =>
      var f := rc => Some(op(lc, rc));
      var m := Map(that, f, wrapper, rc => exprOp(AsExpr(self.delegate), rc));
      assert VariableValueOf(that).Some? ==> Then(VariableValueOf(that).value, f) == Both(Yields(lc), VariableValueOf(that).value, op);
      m.value
    case None =>
      match (VariableValueOf(self.delegate), VariableValueOf(that))
      case (Some(lv), Some(rv)) => Supplied(Both(lv, rv, op), exprOp(AsExpr(self.delegate), AsExpr(thatUnwrapped)))
      case _ =>
        var e := exprOp(AsExpr(self.delegate), AsExpr(thatUnwrapped));
        if IsTimeDependent(self) || IsTimeDependent(that) then TimeDependentValue(e) else Plain(e)
  }

  /** Whenever both sides have a back-end value, the combination has one: the operator applied to both. */
  lemma MapWithSupplies<T, R, O>(self: Value<T>, that: Value<R>, wrapper: O -> Value<O>, op: (T, R) -> O,
                                 exprOp: (Expr, Expr) -> Expr)
    requires self.Wrapper?
    requires forall o: O :: VariableValueOf(wrapper(o)) == Some(Yields(o))
    ensures VariableValueOf(self).Some? && VariableValueOf(that).Some? ==>
              VariableValueOf(MapWith(self, that, wrapper, op, exprOp))
              == Some(Both(VariableValueOf(self).value, VariableValueOf(that).value, op))
  {
    QueriesAgree(self);
    QueriesAgree(that);
    if VariableValueOf(self).Some? && VariableValueOf(that).Some? {
      if ConstantValueOf(self).Some? && ConstantValueOf(that).Some? {
        WrapperSupplies(wrapper, op(ConstantValueOf(self).value, ConstantValueOf(that).value));
      } else if ConstantValueOf(self).None? {
        assert VariableValueOf(self.delegate) == VariableValueOf(self);
      }
    }
  }

  /** Every pair of categories combines as the table says, when the wrapper builds constants. */
  lemma MapWithFollowsTheTable<T, R, O>(self: Value<T>, that: Value<R>, wrapper: O -> Value<O>, op: (T, R) -> O,
                                        exprOp: (Expr, Expr) -> Expr)
    requires self.Wrapper?
    requires forall o: O :: CategoryOf(wrapper(o)) == Constant
    ensures CategoryOf(MapWith(self, that, wrapper, op, exprOp)) == Combine(CategoryOf(self), CategoryOf(that))
  {
    QueriesAgree(self);
    QueriesAgree(that);
    var r := MapWith(self, that, wrapper, op, exprOp);
    match ConstantValueOf(self)
    case Some(lc) =>
      var f := rc => Some(op(lc, rc));
      var m := Map(that, f, wrapper, rc => exprOp(AsExpr(self.delegate), rc));
      assert r == m.value;
      MapKeepsCategory(that, f, wrapper, rc => exprOp(AsExpr(self.delegate), rc));
    case None =>
      assert VariableValueOf(self.delegate) == VariableValueOf(self);
      assert IsTimeDependent(self.delegate) == IsTimeDependent(self);
  }
}
