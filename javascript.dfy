/**
 * The JavaScript syntax tree used to generate browser code, and its pretty-printer.
 *
 * Expressions print themselves recursively; an operand is put between brackets exactly when
 * its own precedence ranks above the precedence its position accepts.  Symbols are
 * placeholders for sub-expressions that are chosen later: a scope binds them to expressions.
 * Statements printed here are those that do not declare variables (the `NO_DECLARATION`
 * scope); declaring `let`/`for-of` statements print as `None`, the failure of that scope.
 */
module JavaScript {
  import opened Wrappers
  import opened Strings

  /** Operator precedence, from the most tightly binding to the loosest. */
  datatype Precedence = Atom | Multiplication | Addition | Conjunction | Disjunction | Assignment | Lowest

  function Rank(p: Precedence): nat
  {
    match p
    case Atom => 0
    case Multiplication => 1
    case Addition => 2
    case Conjunction => 3
    case Disjunction => 4
    case Assignment => 5
    case Lowest => 6
  }

  datatype StatementPrecedence = Block | ControlStructure | SequencePrecedence

  function StatementRank(p: StatementPrecedence): nat
  {
    match p
    case Block => 0
    case ControlStructure => 1
    case SequencePrecedence => 2
  }

  /** Symbols are identified by the number the global counter gave them when they were created. */
  type SymbolId = nat

  datatype Expr =
    | StringLiteral(text: string)                 // literal(String)
    | Literal(code: string)                       // literal(Number|boolean): printed by toString
    | Code(code: string)                          // JsAtom and JsGlobal: printed as is
    | Dot(lhs: Expr, attr: string)
    | Binary(precedence: Precedence, lhs: Expr, lPrecedence: Precedence, op: string, rhs: Expr, rPrecedence: Precedence)
    | Unary(precedence: Precedence, operator: string, argument: Expr, argPrecedence: Precedence)
    | Ternary(cond: Expr, ifTrue: Expr, ifFalse: Expr)
    | MethodCall(receiver: Expr, name: string, args: seq<Expr>)
    | ArrayAccess(indexed: Expr, index: Expr)
    | FunCall(callee: Expr, args: seq<Expr>)
    | ArrayLiteral(elements: seq<Expr>)
    | Symbol(id: SymbolId)

  function PrecedenceOf(e: Expr): Precedence
  {
    match e
    case Binary(p, _, _, _, _, _) => p
    case Unary(p, _, _, _) => p
    case Ternary(_, _, _) => Assignment
    case _ => Atom
  }

  // ---------------------------------------------------------------------------------------
  // Building expressions (the operator methods of JsExpression)
  // ---------------------------------------------------------------------------------------

  function Plus(l: Expr, r: Expr): Expr { Binary(Addition, l, Addition, "+", r, Addition) }
  /** The right operand of a subtraction is printed at multiplication level: x-(y-z) differs from x-y-z. */
  function Minus(l: Expr, r: Expr): Expr { Binary(Addition, l, Addition, "-", r, Multiplication) }
  function Times(l: Expr, r: Expr): Expr { Binary(Multiplication, l, Multiplication, "*", r, Multiplication) }
  function Divide(l: Expr, r: Expr): Expr { Binary(Multiplication, l, Multiplication, "/", r, Atom) }
  function Eq(l: Expr, r: Expr): Expr { Binary(Assignment, l, Addition, " === ", r, Addition) }
  function And(l: Expr, r: Expr): Expr { Binary(Conjunction, l, Conjunction, " && ", r, Conjunction) }
  function Or(l: Expr, r: Expr): Expr { Binary(Disjunction, l, Disjunction, " || ", r, Disjunction) }
  function Not(e: Expr): Expr { Unary(Atom, "!", e, Atom) }
  function Invoke(receiver: Expr, name: string, args: seq<Expr>): Expr { MethodCall(receiver, name, args) }
  function NumberLiteral(n: int): Expr { Literal(IntToString(n)) }
  function BooleanLiteral(b: bool): Expr { Literal(if b then "true" else "false") }

  function CreateElement(tag: string): Expr { FunCall(Code("document.createElement"), [StringLiteral(tag)]) }
  function CreateTextNode(contents: Expr): Expr { FunCall(Code("document.createTextNode"), [contents]) }

  predicate IsIdentifierStart(c: char)
  {
    'a' <= c <= 'z' || 'A' <= c <= 'Z' || c == '_' || c == '$'
  }

  predicate IsIdentifierPart(c: char)
  {
    IsIdentifierStart(c) || '0' <= c <= '9'
  }

  /** A non-empty identifier (ASCII approximation of Java's identifier predicates). */
  predicate IsIdentifier(s: string)
  {
    |s| > 0 && IsIdentifierStart(s[0]) && forall i :: 1 <= i < |s| ==> IsIdentifierPart(s[i])
  }

  /** Attribute access: `lhs.attr` for an identifier, `lhs['attr']` otherwise. */
  function DotOf(lhs: Expr, attr: string): (r: Expr)
    ensures IsIdentifier(attr) <==> r.Dot?
    ensures r.Dot? ==> r == Dot(lhs, attr)
    ensures r.ArrayAccess? ==> r == ArrayAccess(lhs, StringLiteral(attr))
  {
    if IsIdentifier(attr) then Dot(lhs, attr) else ArrayAccess(lhs, StringLiteral(attr))
  }

  // ---------------------------------------------------------------------------------------
  // Scopes
  // ---------------------------------------------------------------------------------------

  /** The symbol values a scope holds on top of its root scope. */
  type Bindings = map<SymbolId, Expr>

  /** What a root scope answers for a symbol it has no value for. */
  function Unresolved(id: SymbolId): string
  {
    "(unresolved Symbol#" + NatToString(id) + ")"
  }

  /** Adding a symbol value to a scope; binding the same symbol twice fails. */
  function WithSymbolValue(b: Bindings, id: SymbolId, value: Expr): (r: Option<Bindings>)
    ensures r.Some? <==> id !in b
    ensures r.Some? ==> r.value.Keys == b.Keys + {id} && r.value[id] == value
    ensures r.Some? ==> forall other :: other in b ==> r.value[other] == b[other]
  {
    if id in b then None else Some(b[id := value])
  }

  /** The expression a symbol stands for: its own value, else what the root scope answers. */
  function Resolve(b: Bindings, id: SymbolId): (r: Expr)
    ensures id in b ==> r == b[id]
    ensures id !in b ==> Occurs(r) == {} && Format(r, map[]) == Unresolved(id)
  {
    if id in b then b[id] else Code(Unresolved(id))
  }

  // ---------------------------------------------------------------------------------------
  // Printing expressions
  // ---------------------------------------------------------------------------------------

  /** The body of a single-quoted string literal: backslashes doubled first, then quotes escaped. */
  function EscapeText(text: string): string
  {
    Replace(Replace(text, '\\', "\\\\"), '\'', "\\'")
  }

  /**
   * The text of `e` in a scope holding `b`.  The value of a bound symbol is printed without
   * that symbol's own binding; this agrees with the source wherever the source terminates.
   */
  function Format(e: Expr, b: Bindings): string
    decreases b.Keys, e, 0
  {
    match e
    case StringLiteral(text) => "'" + EscapeText(text) + "'"
    case Literal(code) => code
    case Code(code) => code
    case Dot(lhs, attr) => FormatAt(lhs, b, Atom) + "." + attr
    case Binary(_, lhs, lp, op, rhs, rp) => FormatAt(lhs, b, lp) + op + FormatAt(rhs, b, rp)
    case Unary(_, op, arg, ap) => op + FormatAt(arg, b, ap)
    case Ternary(c, t, f) =>
      FormatAt(c, b, Disjunction) + "? " + FormatAt(t, b, Disjunction) + " : " + FormatAt(f, b, Disjunction)
    case MethodCall(receiver, name, args) =>
      FormatAt(receiver, b, Atom) + "." + name + "(" + Join(FormatAll(args, b), ", ") + ")"
    case ArrayAccess(arr, index) => FormatAt(arr, b, Atom) + "[" + Format(index, b) + "]"
    case FunCall(f, args) => FormatAt(f, b, Atom) + "(" + Join(FormatAll(args, b), ", ") + ")"
    case ArrayLiteral(elements) => "[" + Join(FormatAll(elements, b), ", ") + "]"
    case Symbol(id) => if id in b then Format(b[id], b - {id}) else Unresolved(id)
  }

  /** Each expression of `es` printed on its own. */
  function FormatAll(es: seq<Expr>, b: Bindings): (r: seq<string>)
    decreases b.Keys, es, 0
    ensures |r| == |es|
  {
    if |es| == 0 then [] else [Format(es[0], b)] + FormatAll(es[1..], b)
  }

  /** The text of `e` where precedence `target` is accepted: bracketed when `e` binds more loosely. */
  function FormatAt(e: Expr, b: Bindings, target: Precedence): string
    decreases b.Keys, e, 1
  {
    if e.Symbol? && e.id in b then FormatAt(b[e.id], b - {e.id}, target)
    else if Rank(PrecedenceOf(e)) > Rank(target) then "(" + Format(e, b) + ")"
    else Format(e, b)
  }

  // ---------------------------------------------------------------------------------------
  // Free symbols
  // ---------------------------------------------------------------------------------------

  /** Two symbol lists combined: an empty side is returned as the result. */
  function Union(l: seq<SymbolId>, r: seq<SymbolId>): (u: seq<SymbolId>)
    ensures u == l + r
  {
    if |l| == 0 then r else if |r| == 0 then l else l + r
  }

  function Without(syms: seq<SymbolId>, id: SymbolId): (r: seq<SymbolId>)
    ensures forall x :: x in r <==> x in syms && x != id
  {
    if |syms| == 0 then []
    else (if syms[0] == id then [] else [syms[0]]) + Without(syms[1..], id)
  }

  /**
   * The symbols `e` mentions, in order, with repetitions.  The receiver of a method call
   * contributes its symbols too (see `FreeSymbolsAsWritten` for the source's version).
   */
  function FreeSymbols(e: Expr): seq<SymbolId>
    decreases e, 0
  {
    match e
    case StringLiteral(_) => []
    case Literal(_) => []
    case Code(_) => []
    case Dot(lhs, _) => FreeSymbols(lhs)
    case Binary(_, lhs, _, _, rhs, _) => Union(FreeSymbols(lhs), FreeSymbols(rhs))
    case Unary(_, _, arg, _) => FreeSymbols(arg)
    case Ternary(c, t, f) => TernarySymbols(FreeSymbols(c), FreeSymbols(t), FreeSymbols(f))
    case MethodCall(receiver, _, args) => Union(FreeSymbols(receiver), FreeSymbolsOfAll(args))
    case ArrayAccess(arr, index) => Union(FreeSymbols(arr), FreeSymbols(index))
    case FunCall(f, args) => Union(FreeSymbols(f), FreeSymbolsOfAll(args))
    case ArrayLiteral(elements) => FreeSymbolsOfAll(elements)
    case Symbol(id) => [id]
  }

  /** The symbols of all of `es`, in order. */
  function FreeSymbolsOfAll(es: seq<Expr>): seq<SymbolId>
    decreases es, 0
  {
    if |es| == 0 then [] else Union(FreeSymbols(es[0]), FreeSymbolsOfAll(es[1..]))
  }

  /** A ternary lists the condition's symbols, then the else branch's, then the then branch's. */
  function TernarySymbols(c: seq<SymbolId>, t: seq<SymbolId>, f: seq<SymbolId>): (r: seq<SymbolId>)
    ensures r == c + f + t
  {
    if |c| == 0 && |t| == 0 then f
    else if |c| == 0 && |f| == 0 then t
    else if |f| == 0 && |t| == 0 then c
    else c + f + t
  }

  /** The source's free symbols: a method call lists its arguments' symbols only. */
  function FreeSymbolsAsWritten(e: Expr): seq<SymbolId>
    decreases e, 0
  {
    match e
    case StringLiteral(_) => []
    case Literal(_) => []
    case Code(_) => []
    case Dot(lhs, _) => FreeSymbolsAsWritten(lhs)
    case Binary(_, lhs, _, _, rhs, _) => Union(FreeSymbolsAsWritten(lhs), FreeSymbolsAsWritten(rhs))
    case Unary(_, _, arg, _) => FreeSymbolsAsWritten(arg)
    case Ternary(c, t, f) =>
      TernarySymbols(FreeSymbolsAsWritten(c), FreeSymbolsAsWritten(t), FreeSymbolsAsWritten(f))
    case MethodCall(_, _, args) => FreeSymbolsOfAllAsWritten(args)
    case ArrayAccess(arr, index) => Union(FreeSymbolsAsWritten(arr), FreeSymbolsAsWritten(index))
    case FunCall(f, args) => Union(FreeSymbolsAsWritten(f), FreeSymbolsOfAllAsWritten(args))
    case ArrayLiteral(elements) => FreeSymbolsOfAllAsWritten(elements)
    case Symbol(id) => [id]
  }

  function FreeSymbolsOfAllAsWritten(es: seq<Expr>): seq<SymbolId>
    decreases es, 0
  {
    if |es| == 0 then [] else Union(FreeSymbolsAsWritten(es[0]), FreeSymbolsOfAllAsWritten(es[1..]))
  }

  /** Reference definition: the set of symbols occurring anywhere in `e`. */
  function Occurs(e: Expr): set<SymbolId>
    decreases e, 0
  {
    match e
    case StringLiteral(_) => {}
    case Literal(_) => {}
    case Code(_) => {}
    case Dot(lhs, _) => Occurs(lhs)
    case Binary(_, lhs, _, _, rhs, _) => Occurs(lhs) + Occurs(rhs)
    case Unary(_, _, arg, _) => Occurs(arg)
    case Ternary(c, t, f) => Occurs(c) + Occurs(t) + Occurs(f)
    case MethodCall(receiver, _, args) => Occurs(receiver) + OccursInAll(args)
    case ArrayAccess(arr, index) => Occurs(arr) + Occurs(index)
    case FunCall(f, args) => Occurs(f) + OccursInAll(args)
    case ArrayLiteral(elements) => OccursInAll(elements)
    case Symbol(id) => {id}
  }

  function OccursInAll(es: seq<Expr>): set<SymbolId>
    decreases es, 0
  {
    if |es| == 0 then {} else Occurs(es[0]) + OccursInAll(es[1..])
  }

  // ---------------------------------------------------------------------------------------
  // Statements
  // ---------------------------------------------------------------------------------------

  datatype Stmt =
    | ExprStatement(expr: Expr)                          // JsStatement.of(expression)
    | Return                                             // the keyword statement `return;`
    | Raw(text: string)                                  // a statement given by its text
    | Sequence(items: seq<Fragment>)                     // seq(list) of other than one fragment
    | EmptyIfChain
    | If(condition: Expr, body: Stmt)                    // IfBlock
    | ElseIf(previous: Stmt, condition: Expr, body: Stmt)  // IfChain
    | Else(ifBlock: Stmt, elseBody: seq<Fragment>)       // IfBlock._else
    | Let(value: Expr, symbol: SymbolId, letBody: Stmt)
    | ForOf(iterable: Expr, item: SymbolId, loopBody: Fragment)
    | AssignIn(bound: SymbolId, boundValue: Expr, inner: Stmt)   // Symbol.assignIn

  /** What JsFragment stands for: an expression or a statement. */
  datatype Fragment = Expression(e: Expr) | Statement(s: Stmt)

  function StatementPrecedenceOf(s: Stmt): StatementPrecedence
  {
    match s
    case Sequence(_) => SequencePrecedence
    case EmptyIfChain => SequencePrecedence
    case Let(_, _, _) => SequencePrecedence
    case If(_, _) => ControlStructure
    case ElseIf(_, _, _) => ControlStructure
    case Else(_, _) => ControlStructure
    case AssignIn(_, _, inner) => StatementPrecedenceOf(inner)
    case _ => Block
  }

  /** JsStatement.of: a statement stays itself, an expression becomes an expression statement. */
  function Of(f: Fragment): (s: Stmt)
    ensures f.Statement? ==> s == f.s
  {
    match f
    case Statement(s) => s
    case Expression(e) => ExprStatement(e)
  }

  /** seq(list): a single fragment is that fragment as a statement, anything else a sequence. */
  function SeqOf(items: seq<Fragment>): Stmt
  {
    if |items| == 1 then Of(items[0]) else Sequence(items)
  }

  /** return value; */
  function ReturnValue(v: Expr): Stmt { ExprStatement(Unary(Atom, "return ", v, Lowest)) }

  /** target=value; */
  function Assign(target: Expr, v: Expr): Stmt { ExprStatement(Binary(Assignment, target, Lowest, "=", v, Lowest)) }

  /** JsGlobal.set: name = value; */
  function GlobalSet(name: string, v: Expr): Stmt
  {
    ExprStatement(Binary(Assignment, Code(name), Atom, " = ", v, Assignment))
  }

  /** JsGlobal.declare: the script line introducing a global with its initial value. */
  function GlobalDeclaration(name: string, initial: Expr): string
  {
    name + " = " + Format(initial, map[]) + ";\n"
  }

  function IfThen(condition: Expr, body: seq<Fragment>): Stmt { If(condition, SeqOf(body)) }

  predicate IsIfBlock(s: Stmt) { s.If? || s.ElseIf? }

  /** _elseIf on an if-like statement: the empty chain starts a new `if`. */
  function ElseIfOf(chain: Stmt, condition: Expr, body: seq<Fragment>): (r: Stmt)
    requires chain.EmptyIfChain? || IsIfBlock(chain)
    ensures IsIfBlock(r)
  {
    if chain.EmptyIfChain? then IfThen(condition, body) else ElseIf(chain, condition, SeqOf(body))
  }

  /** _else on an if-like statement: on the empty chain it is the body on its own. */
  function ElseOf(chain: Stmt, body: seq<Fragment>): Stmt
    requires chain.EmptyIfChain? || IsIfBlock(chain)
  {
    if chain.EmptyIfChain? then SeqOf(body) else Else(chain, body)
  }

  /** formatAsBlock: braces exactly when the statement is not already a block. */
  function Braced(s: Stmt, text: string): string
  {
    if StatementRank(StatementPrecedenceOf(s)) > StatementRank(Block) then "{" + text + "}" else text
  }

  /**
   * The text of a statement in a scope that forbids declarations; `None` where the source
   * throws (a declaration, or a symbol bound twice).
   */
  function FormatStatement(s: Stmt, b: Bindings): Option<string>
    decreases s
  {
    match s
    case ExprStatement(e) => Some(Format(e, b) + ";")
    case Return => Some("return;")
    case Raw(text) => Some(text)
    case Sequence(items) => FormatFragments(items, b)
    case EmptyIfChain => Some("")
    case If(c, body) =>
      (match FormatStatement(body, b)
       case Some(t) => Some("if (" + Format(c, b) + ")" + Braced(body, t))
       case None => None)
    case ElseIf(previous, c, body) =>
      (match (FormatStatement(previous, b), FormatStatement(body, b))
       case (Some(p), Some(t)) => Some(p + " else " + "if (" + Format(c, b) + ")" + Braced(body, t))
       case _ => None)
    case Else(ifBlock, elseBody) =>
      (match (FormatStatement(ifBlock, b), FormatFragments(elseBody, b))
       case (Some(p), Some(t)) => Some(p + " else " + Braced(SeqOf(elseBody), t))
       case _ => None)
    case Let(_, _, _) => None
    case ForOf(_, _, _) => None
    case AssignIn(id, v, inner) =>
      (match WithSymbolValue(b, id, v)
       case Some(b') => FormatStatement(inner, b')
       case None => None)
  }

  /** The fragments turned into statements and printed one after the other. */
  function FormatFragments(items: seq<Fragment>, b: Bindings): Option<string>
    decreases items
  {
    if |items| == 0 then Some("")
    else
      match (FormatFragment(items[0], b), FormatFragments(items[1..], b))
      case (Some(h), Some(t)) => Some(h + t)
      case _ => None
  }

  function FormatFragment(f: Fragment, b: Bindings): Option<string>
    decreases f
  {
    match f
    case Expression(e) => Some(Format(e, b) + ";")
    case Statement(s) => FormatStatement(s, b)
  }

  /**
   * The free symbols of a statement.  The branches before an `else`/`else if` and the
   * statement under an `assignIn` contribute too (see `StatementSymbolsAsWritten`).
   */
  function StatementSymbols(s: Stmt): seq<SymbolId>
    decreases s
  {
    match s
    case ExprStatement(e) => FreeSymbols(e)
    case Return => []
    case Raw(_) => []
    case Sequence(items) => FragmentListSymbols(items)
    case EmptyIfChain => []
    case If(c, body) => Union(FreeSymbols(c), StatementSymbols(body))
    case ElseIf(previous, c, body) =>
      Union(StatementSymbols(previous), Union(FreeSymbols(c), StatementSymbols(body)))
    case Else(ifBlock, elseBody) => Union(StatementSymbols(ifBlock), FragmentListSymbols(elseBody))
    case Let(v, id, body) => FreeSymbols(v) + Without(StatementSymbols(body), id)
    case ForOf(arr, id, body) => FreeSymbols(arr) + Without(FragmentSymbols(body), id)
    case AssignIn(id, v, inner) => FreeSymbols(v) + Without(StatementSymbols(inner), id)
  }

  function FragmentListSymbols(items: seq<Fragment>): seq<SymbolId>
    decreases items
  {
    if |items| == 0 then [] else Union(FragmentSymbols(items[0]), FragmentListSymbols(items[1..]))
  }

  function FragmentSymbols(f: Fragment): seq<SymbolId>
    decreases f
  {
    match f
    case Expression(e) => FreeSymbols(e)
    case Statement(s) => StatementSymbols(s)
  }

  /** The source's statement symbols: `else if` and `else` forget the earlier branches, `assignIn` lists none. */
  function StatementSymbolsAsWritten(s: Stmt): seq<SymbolId>
    decreases s
  {
    match s
    case ExprStatement(e) => FreeSymbolsAsWritten(e)
    case Return => []
    case Raw(_) => []
    case Sequence(items) => FragmentListSymbolsAsWritten(items)
    case EmptyIfChain => []
    case If(c, body) => Union(FreeSymbolsAsWritten(c), StatementSymbolsAsWritten(body))
    case ElseIf(_, c, body) => Union(FreeSymbolsAsWritten(c), StatementSymbolsAsWritten(body))
    case Else(_, elseBody) => FragmentListSymbolsAsWritten(elseBody)
    case Let(v, id, body) => FreeSymbolsAsWritten(v) + Without(StatementSymbolsAsWritten(body), id)
    case ForOf(arr, id, body) => FreeSymbolsAsWritten(arr) + Without(FragmentSymbolsAsWritten(body), id)
    case AssignIn(_, _, _) => []
  }

  function FragmentListSymbolsAsWritten(items: seq<Fragment>): seq<SymbolId>
    decreases items
  {
    if |items| == 0 then []
    else Union(FragmentSymbolsAsWritten(items[0]), FragmentListSymbolsAsWritten(items[1..]))
  }

  function FragmentSymbolsAsWritten(f: Fragment): seq<SymbolId>
    decreases f
  {
    match f
    case Expression(e) => FreeSymbolsAsWritten(e)
    case Statement(s) => StatementSymbolsAsWritten(s)
  }

  /** Reference definition: the symbols occurring in a statement outside the scope that binds them. */
  function OccursFree(s: Stmt): set<SymbolId>
    decreases s
  {
    match s
    case ExprStatement(e) => Occurs(e)
    case Return => {}
    case Raw(_) => {}
    case Sequence(items) => OccursFreeInAll(items)
    case EmptyIfChain => {}
    case If(c, body) => Occurs(c) + OccursFree(body)
    case ElseIf(previous, c, body) => OccursFree(previous) + Occurs(c) + OccursFree(body)
    case Else(ifBlock, elseBody) => OccursFree(ifBlock) + OccursFreeInAll(elseBody)
    case Let(v, id, body) => Occurs(v) + (OccursFree(body) - {id})
    case ForOf(arr, id, body) => Occurs(arr) + (OccursFreeInFragment(body) - {id})
    case AssignIn(id, v, inner) => Occurs(v) + (OccursFree(inner) - {id})
  }

  function OccursFreeInAll(items: seq<Fragment>): set<SymbolId>
    decreases items
  {
    if |items| == 0 then {} else OccursFreeInFragment(items[0]) + OccursFreeInAll(items[1..])
  }

  function OccursFreeInFragment(f: Fragment): set<SymbolId>
    decreases f
  {
    match f
    case Expression(e) => Occurs(e)
    case Statement(s) => OccursFree(s)
  }
}
