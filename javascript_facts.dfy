/**
 * Properties of the JavaScript printer: bracketing, string-literal escaping, symbol
 * resolution, free-symbol lists and the statement combinators.
 */
module JavaScriptFacts {
  import opened Wrappers
  import opened Strings
  import opened JavaScript

  // ---------------------------------------------------------------------------------------
  // Brackets
  // ---------------------------------------------------------------------------------------

  /** An expression other than a bound symbol is bracketed exactly when it binds more loosely than the target. */
  lemma BracketsExactlyWhenLooser(e: Expr, b: Bindings, target: Precedence)
    requires !(e.Symbol? && e.id in b)
    ensures FormatAt(e, b, target) == "(" + Format(e, b) + ")" <==> Rank(PrecedenceOf(e)) > Rank(target)
    ensures Rank(PrecedenceOf(e)) <= Rank(target) ==> FormatAt(e, b, target) == Format(e, b)
  {
    if Rank(PrecedenceOf(e)) <= Rank(target) {
      assert |FormatAt(e, b, target)| < |"(" + Format(e, b) + ")"|;
    }
  }

  /** A bound symbol prints as its value would at the same position, brackets included. */
  lemma BoundSymbolPrintsItsValue(id: SymbolId, b: Bindings, target: Precedence)
    requires id in b
    ensures FormatAt(Symbol(id), b, target) == FormatAt(b[id], b - {id}, target)
    ensures Format(Symbol(id), b) == Format(b[id], b - {id})
  {
  }

  function Two(): Expr { NumberLiteral(2) }
  function Three(): Expr { NumberLiteral(3) }
  function Four(): Expr { NumberLiteral(4) }

  lemma SmallNumbers()
    ensures Format(Two(), map[]) == "2" && Format(Three(), map[]) == "3" && Format(Four(), map[]) == "4"
  {
    assert NatToString(2) == "2" && NatToString(3) == "3" && NatToString(4) == "4";
  }

  /** A sum under a product is bracketed. */
  lemma SumTimesFour()
    ensures Format(Times(Plus(Two(), Three()), Four()), map[]) == "(2+3)*4"
  {
    SmallNumbers();
    assert Format(Plus(Two(), Three()), map[]) == "2+3";
  }

  /** The divisor is bracketed unless it is an atom. */
  lemma TwoDividedBySum()
    ensures Format(Divide(Two(), Plus(Three(), Four())), map[]) == "2/(3+4)"
  {
    SmallNumbers();
    assert Format(Plus(Three(), Four()), map[]) == "3+4";
  }

  /** Products need no brackets, whichever way they associate. */
  lemma ProductsAssociate()
    ensures Format(Times(Times(Two(), Three()), Four()), map[]) == "2*3*4"
    ensures Format(Times(Two(), Times(Three(), Four())), map[]) == "2*3*4"
  {
    SmallNumbers();
    assert Format(Times(Two(), Three()), map[]) == "2*3";
    assert Format(Times(Three(), Four()), map[]) == "3*4";
  }

  /** A difference on the right of a minus is bracketed; on the left, or a product on the right, it is not. */
  lemma Differences()
    ensures Format(Minus(Two(), Minus(Three(), Four())), map[]) == "2-(3-4)"
    ensures Format(Minus(Two(), Times(Three(), Four())), map[]) == "2-3*4"
    ensures Format(Minus(Minus(Two(), Three()), Four()), map[]) == "2-3-4"
  {
    SmallNumbers();
    assert Format(Minus(Three(), Four()), map[]) == "3-4";
    assert Format(Times(Three(), Four()), map[]) == "3*4";
    assert Format(Minus(Two(), Three()), map[]) == "2-3";
  }

  /** A string without backslashes or quotes prints as itself in quotes, never bracketed. */
  lemma QuotedPlainText(text: string, target: Precedence)
    requires '\\' !in text && '\'' !in text
    ensures FormatAt(StringLiteral(text), map[], target) == "'" + text + "'"
  {
    assert EscapeText(text) == text;
  }

  /** A call with one argument prints its receiver as an atom, then the name and the argument. */
  lemma InvokeWithOneArgument(receiver: Expr, name: string, arg: Expr, b: Bindings)
    ensures Format(Invoke(receiver, name, [arg]), b) == FormatAt(receiver, b, Atom) + "." + name + "(" + Format(arg, b) + ")"
  {
    assert FormatAll([arg], b) == [Format(arg, b)];
    assert Join([Format(arg, b)], ", ") == Format(arg, b);
  }

  /** A method call on a sum brackets the receiver. */
  lemma MethodCallOnSum()
    ensures Format(Invoke(Plus(StringLiteral("2"), StringLiteral("3")), "substring", [NumberLiteral(4)]), map[])
         == "('2'+'3').substring(4)"
  {
    var two, three := "2", "3";
    var sum := Plus(StringLiteral(two), StringLiteral(three));
    InvokeWithOneArgument(sum, "substring", Four(), map[]);
    BracketedSum();
    SmallNumbers();
    CallText(FormatAt(sum, map[], Atom), Format(Four(), map[]));
  }

  lemma CallText(receiver: string, arg: string)
    requires receiver == "('2'+'3')" && arg == "4"
    ensures receiver + "." + "substring" + "(" + arg + ")" == "('2'+'3').substring(4)"
  {
  }

  /** The sum of two texts without quotes or backslashes, where only an atom is accepted. */
  lemma BracketedPlainSum(l: string, r: string)
    requires '\\' !in l && '\'' !in l && '\\' !in r && '\'' !in r
    ensures FormatAt(Plus(StringLiteral(l), StringLiteral(r)), map[], Atom) == "(" + ("'" + l + "'") + "+" + ("'" + r + "'") + ")"
  {
    QuotedPlainText(l, Addition);
    QuotedPlainText(r, Addition);
  }

  /** The sum of two plain strings, where only an atom is accepted. */
  lemma BracketedSum()
    ensures FormatAt(Plus(StringLiteral("2"), StringLiteral("3")), map[], Atom) == "('2'+'3')"
  {
    BracketedPlainSum("2", "3");
  }

  /** A method call on a literal does not bracket the receiver. */
  lemma MethodCallOnLiteral(hello: string)
    requires hello == "hello"
    ensures Format(Invoke(StringLiteral(hello), "substring", [NumberLiteral(2)]), map[]) == "'hello'.substring(2)"
  {
    SmallNumbers();
    assert '\\' !in hello && '\'' !in hello;
    assert Format(StringLiteral(hello), map[]) == "'hello'";
    assert FormatAt(StringLiteral(hello), map[], Atom) == "'hello'";
    assert FormatAll([NumberLiteral(2)], map[]) == ["2"];
    assert Join(["2"], ", ") == "2";
    assert "'hello'" + "." + "substring" + "(" + "2" + ")" == "'hello'.substring(2)";
  }

  // ---------------------------------------------------------------------------------------
  // String literals
  // ---------------------------------------------------------------------------------------

  function EscapeChar(c: char): string
  {
    if c == '\\' then "\\\\" else if c == '\'' then "\\'" else [c]
  }

  /** Reads back the body of a single-quoted literal: a backslash takes the next character literally. */
  function UnescapeText(s: string): string
  {
    if |s| == 0 then ""
    else if s[0] == '\\' && |s| >= 2 then [s[1]] + UnescapeText(s[2..])
    else [s[0]] + UnescapeText(s[1..])
  }

  /** The two replacements amount to escaping each character on its own. */
  lemma {:induction false} EscapeTextPerChar(t: string)
    ensures EscapeText(t) == MapChars(t, EscapeChar)
  {
    if |t| > 0 {
      var c, rest := t[0], t[1..];
      var first := if c == '\\' then "\\\\" else [c];
      assert Replace(t, '\\', "\\\\") == first + Replace(rest, '\\', "\\\\");
      ReplaceAppend(first, Replace(rest, '\\', "\\\\"), '\'', "\\'");
      assert Replace([c], '\'', "\\'") == (if c == '\'' then "\\'" else [c]) by {
        assert [c][1..] == [];
      }
      assert Replace(first, '\'', "\\'") == EscapeChar(c);
      EscapeTextPerChar(rest);
    }
  }

  lemma {:induction false} UnescapeEscapedChars(t: string)
    ensures UnescapeText(MapChars(t, EscapeChar)) == t
  {
    if |t| > 0 {
      var rest := MapChars(t[1..], EscapeChar);
      var s := EscapeChar(t[0]) + rest;
      assert MapChars(t, EscapeChar) == s;
      UnescapeEscapedChars(t[1..]);
      if t[0] == '\\' || t[0] == '\'' {
        assert s[0] == '\\' && s[1] == t[0] && s[2..] == rest;
      } else {
        assert s[0] == t[0] && s[1..] == rest;
      }
      assert t == [t[0]] + t[1..];
    }
  }

  /** A string literal is its text between single quotes, and un-escaping the inside gives the text back. */
  lemma StringLiteralRoundTrip(text: string, b: Bindings)
    ensures var s := Format(StringLiteral(text), b);
            |s| >= 2 && s[0] == '\'' && s[|s| - 1] == '\'' && UnescapeText(s[1..|s| - 1]) == text
  {
    var s := Format(StringLiteral(text), b);
    assert s[1..|s| - 1] == EscapeText(text);
    EscapeTextPerChar(text);
    UnescapeEscapedChars(text);
  }

  /** dot(attr) prints `lhs.attr` for an identifier and `lhs['attr']` otherwise. */
  lemma DotPrinting(lhs: Expr, attr: string, b: Bindings)
    ensures IsIdentifier(attr) ==> Format(DotOf(lhs, attr), b) == FormatAt(lhs, b, Atom) + "." + attr
    ensures !IsIdentifier(attr) ==>
      Format(DotOf(lhs, attr), b) == FormatAt(lhs, b, Atom) + "['" + EscapeText(attr) + "']"
  {
  }

  // ---------------------------------------------------------------------------------------
  // Scopes
  // ---------------------------------------------------------------------------------------

  /** After binding a symbol, it resolves to its value; other symbols resolve as before. */
  lemma ResolveAfterBinding(b: Bindings, id: SymbolId, value: Expr, other: SymbolId)
    requires id !in b
    ensures WithSymbolValue(b, id, value).Some?
    ensures Resolve(WithSymbolValue(b, id, value).value, id) == value
    ensures other != id ==> Resolve(WithSymbolValue(b, id, value).value, other) == Resolve(b, other)
  {
  }

  /** A second binding for the same symbol is refused, whatever the value. */
  lemma RebindingFails(b: Bindings, id: SymbolId, v1: Expr, v2: Expr)
    requires WithSymbolValue(b, id, v1).Some?
    ensures WithSymbolValue(WithSymbolValue(b, id, v1).value, id, v2).None?
  {
  }

  // ---------------------------------------------------------------------------------------
  // Free symbols
  // ---------------------------------------------------------------------------------------

  /** The free-symbol list names exactly the symbols occurring in the expression. */
  lemma {:induction false} FreeSymbolsAreOccurrences(e: Expr)
    ensures forall x :: x in FreeSymbols(e) <==> x in Occurs(e)
    decreases e
  {
    match e
    case StringLiteral(_) =>
    case Literal(_) =>
    case Code(_) =>
    case Dot(lhs, _) => FreeSymbolsAreOccurrences(lhs);
    case Binary(_, lhs, _, _, rhs, _) =>
      FreeSymbolsAreOccurrences(lhs);
      FreeSymbolsAreOccurrences(rhs);
    case Unary(_, _, arg, _) => FreeSymbolsAreOccurrences(arg);
    case Ternary(c, t, f) =>
      FreeSymbolsAreOccurrences(c);
      FreeSymbolsAreOccurrences(t);
      FreeSymbolsAreOccurrences(f);
    case MethodCall(receiver, _, args) =>
      FreeSymbolsAreOccurrences(receiver);
      AllFreeSymbolsAreOccurrences(args);
    case ArrayAccess(arr, index) =>
      FreeSymbolsAreOccurrences(arr);
      FreeSymbolsAreOccurrences(index);
    case FunCall(f, args) =>
      FreeSymbolsAreOccurrences(f);
      AllFreeSymbolsAreOccurrences(args);
    case ArrayLiteral(elements) => AllFreeSymbolsAreOccurrences(elements);
    case Symbol(_) =>
  }

  lemma {:induction false} AllFreeSymbolsAreOccurrences(es: seq<Expr>)
    ensures forall x :: x in FreeSymbolsOfAll(es) <==> x in OccursInAll(es)
    decreases es
  {
    if |es| > 0 {
      FreeSymbolsAreOccurrences(es[0]);
      AllFreeSymbolsAreOccurrences(es[1..]);
    }
  }

  /** An expression without free symbols prints the same in every scope. */
  lemma {:induction false} ClosedExpressionIgnoresScope(e: Expr, b: Bindings)
    requires FreeSymbols(e) == []
    ensures Format(e, b) == Format(e, map[])
    ensures forall t :: FormatAt(e, b, t) == FormatAt(e, map[], t)
    decreases e
  {
    match e {
    case StringLiteral(_) =>
    case Literal(_) =>
    case Code(_) =>
    case Dot(lhs, _) => ClosedExpressionIgnoresScope(lhs, b);
    case Binary(_, lhs, _, _, rhs, _) =>
      ClosedExpressionIgnoresScope(lhs, b);
      ClosedExpressionIgnoresScope(rhs, b);
    case Unary(_, _, arg, _) => ClosedExpressionIgnoresScope(arg, b);
    case Ternary(c, t, f) =>
      ClosedExpressionIgnoresScope(c, b);
      ClosedExpressionIgnoresScope(t, b);
      ClosedExpressionIgnoresScope(f, b);
    case MethodCall(receiver, _, args) =>
      ClosedExpressionIgnoresScope(receiver, b);
      ClosedListIgnoresScope(args, b);
    case ArrayAccess(arr, index) =>
      ClosedExpressionIgnoresScope(arr, b);
      ClosedExpressionIgnoresScope(index, b);
    case FunCall(f, args) =>
      ClosedExpressionIgnoresScope(f, b);
      ClosedListIgnoresScope(args, b);
    case ArrayLiteral(elements) => ClosedListIgnoresScope(elements, b);
    }
    SameTextSameBrackets(e, b);
  }

  /** An expression that is not a symbol and prints the same in two scopes is bracketed the same in both. */
  lemma SameTextSameBrackets(e: Expr, b: Bindings)
    requires !e.Symbol? && Format(e, b) == Format(e, map[])
    ensures forall t :: FormatAt(e, b, t) == FormatAt(e, map[], t)
  {
  }

  lemma {:induction false} ClosedListIgnoresScope(es: seq<Expr>, b: Bindings)
    requires FreeSymbolsOfAll(es) == []
    ensures FormatAll(es, b) == FormatAll(es, map[])
    decreases es
  {
    if |es| > 0 {
      ClosedExpressionIgnoresScope(es[0], b);
      ClosedListIgnoresScope(es[1..], b);
    }
  }

  /** The source omits a method call's receiver from its free symbols, so a closed-looking call depends on the scope. */
  lemma ReceiverSymbolsOmittedAsWritten()
    ensures var e := Invoke(Symbol(1), "remove", []);
            FreeSymbolsAsWritten(e) == [] && 1 in Occurs(e)
            && Format(e, map[1 := Code("x")]) == "x.remove()"
            && Format(e, map[]) == "(unresolved Symbol#1).remove()"
  {
    var e := Invoke(Symbol(1), "remove", []);
    assert FreeSymbolsAsWritten(e) == [] && 1 in Occurs(e);
    InvokeWithoutArguments(Symbol(1), "remove", map[1 := Code("x")]);
    InvokeWithoutArguments(Symbol(1), "remove", map[]);
    UnresolvedOne();
  }

  /** A call without arguments prints its receiver as an atom, then the name and empty brackets. */
  lemma InvokeWithoutArguments(receiver: Expr, name: string, b: Bindings)
    ensures Format(Invoke(receiver, name, []), b) == FormatAt(receiver, b, Atom) + "." + name + "()"
  {
    assert FormatAll([], b) == [];
    assert Join([], ", ") == "";
  }

  lemma UnresolvedOne()
    ensures FormatAt(Symbol(1), map[], Atom) + "." + "remove" + "()" == "(unresolved Symbol#1).remove()"
  {
    assert NatToString(1) == "1";
  }

  /** The statement symbols name exactly the symbols occurring outside their binder. */
  lemma {:induction false} StatementSymbolsAreFreeOccurrences(s: Stmt)
    ensures forall x :: x in StatementSymbols(s) <==> x in OccursFree(s)
    decreases s
  {
    match s
    case ExprStatement(e) => FreeSymbolsAreOccurrences(e);
    case Return =>
    case Raw(_) =>
    case Sequence(items) => FragmentListSymbolsAreFreeOccurrences(items);
    case EmptyIfChain =>
    case If(c, body) =>
      FreeSymbolsAreOccurrences(c);
      StatementSymbolsAreFreeOccurrences(body);
    case ElseIf(previous, c, body) =>
      StatementSymbolsAreFreeOccurrences(previous);
      FreeSymbolsAreOccurrences(c);
      StatementSymbolsAreFreeOccurrences(body);
    case Else(ifBlock, elseBody) =>
      StatementSymbolsAreFreeOccurrences(ifBlock);
      FragmentListSymbolsAreFreeOccurrences(elseBody);
    case Let(v, _, body) =>
      FreeSymbolsAreOccurrences(v);
      StatementSymbolsAreFreeOccurrences(body);
    case ForOf(arr, _, body) =>
      FreeSymbolsAreOccurrences(arr);
      FragmentSymbolsAreFreeOccurrences(body);
    case AssignIn(_, v, inner) =>
      FreeSymbolsAreOccurrences(v);
      StatementSymbolsAreFreeOccurrences(inner);
  }

  lemma {:induction false} FragmentListSymbolsAreFreeOccurrences(items: seq<Fragment>)
    ensures forall x :: x in FragmentListSymbols(items) <==> x in OccursFreeInAll(items)
    decreases items
  {
    if |items| > 0 {
      FragmentSymbolsAreFreeOccurrences(items[0]);
      FragmentListSymbolsAreFreeOccurrences(items[1..]);
    }
  }

  lemma {:induction false} FragmentSymbolsAreFreeOccurrences(f: Fragment)
    ensures forall x :: x in FragmentSymbols(f) <==> x in OccursFree(Of(f))
    decreases f
  {
    match f
    case Expression(e) => FreeSymbolsAreOccurrences(e);
    case Statement(s) => StatementSymbolsAreFreeOccurrences(s);
  }

  /** The source's `else` forgets the symbols of the `if` it follows, though its text depends on them. */
  lemma ElseSymbolsOmittedAsWritten()
    ensures var s := Else(If(Symbol(1), Return), [Expression(Code("x"))]);
            StatementSymbolsAsWritten(s) == [] && OccursFree(s) == {1}
            && FormatStatement(s, map[1 := Code("ok")]) == Some("if (ok)return; else x;")
  {
    var x := [Expression(Code("x"))];
    assert x[1..] == [];
    assert OccursFreeInAll(x) == {};
    ElseOkText();
  }

  /** As written, `else if` forgets the branches before it: the first condition's symbol goes unreported. */
  lemma ElseIfSymbolsOmittedAsWritten()
    ensures var s := ElseIf(If(Symbol(1), Return), Code("x"), Return);
            StatementSymbolsAsWritten(s) == [] && OccursFree(s) == {1}
  {
  }

  /** As written, `assignIn` reports no symbols, not even those of the value it binds. */
  lemma AssignInSymbolsOmittedAsWritten()
    ensures var s := AssignIn(1, Symbol(2), ExprStatement(Symbol(1)));
            StatementSymbolsAsWritten(s) == [] && OccursFree(s) == {2}
  {
  }

  lemma ElseOkText()
    ensures FormatStatement(Else(If(Symbol(1), Return), [Expression(Code("x"))]), map[1 := Code("ok")])
            == Some("if (ok)return; else x;")
  {
    var b := map[1 := Code("ok")];
    assert Format(Symbol(1), b) == "ok";
    assert "if (" + "ok" + ")" + "return;" == "if (ok)return;";
    assert FormatStatement(If(Symbol(1), Return), b) == Some("if (ok)return;");
    SingleCodeFragment(b);
    assert SeqOf([Expression(Code("x"))]) == ExprStatement(Code("x"));
    assert "if (ok)return;" + " else " + "x;" == "if (ok)return; else x;";
  }

  lemma SingleCodeFragment(b: Bindings)
    ensures FormatFragments([Expression(Code("x"))], b) == Some("x;")
  {
    assert "x" + ";" == "x;";
    assert FormatFragment(Expression(Code("x")), b) == Some("x;");
    assert FormatFragments([], b) == Some("");
    assert "x;" + "" == "x;";
  }

  // ---------------------------------------------------------------------------------------
  // Statement combinators
  // ---------------------------------------------------------------------------------------

  /** seq of one fragment is that fragment as a statement; an expression statement is the expression and ";". */
  lemma SeqOfOne(f: Fragment, b: Bindings)
    ensures SeqOf([f]) == Of(f)
    ensures f.Expression? ==> FormatStatement(SeqOf([f]), b) == Some(Format(f.e, b) + ";")
  {
  }

  /** Whatever its length, seq prints its fragments one after the other. */
  lemma SeqPrintsItsFragments(items: seq<Fragment>, b: Bindings)
    ensures FormatStatement(SeqOf(items), b) == FormatFragments(items, b)
  {
    if |items| == 1 {
      assert items[1..] == [];
      match items[0]
      case Expression(e) => assert Format(e, b) + ";" + "" == Format(e, b) + ";";
      case Statement(s) =>
        match FormatStatement(s, b)
        case Some(t) => assert t + "" == t;
        case None =>
    }
  }

  /** formatAsBlock adds braces exactly to statements ranked above a block. */
  lemma BracesExactlyAboveBlock(s: Stmt, text: string)
    ensures Braced(s, text) == "{" + text + "}" <==> StatementPrecedenceOf(s) != Block
    ensures StatementPrecedenceOf(s) == Block ==> Braced(s, text) == text
  {
    if StatementPrecedenceOf(s) == Block {
      assert |Braced(s, text)| < |"{" + text + "}"|;
    }
  }

  /** A statement that declares a variable cannot be printed where declarations are forbidden. */
  lemma DeclarationsNeedADeclaringScope(v: Expr, id: SymbolId, body: Stmt, b: Bindings)
    ensures FormatStatement(Let(v, id, body), b).None?
    ensures FormatStatement(ForOf(v, id, Statement(body)), b).None?
  {
  }
}
