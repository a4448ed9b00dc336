// The imperative parts of the JavaScript printer: the comma-separated argument loops of
// method and function calls, the symbol-collecting loop over a list of fragments, the
// name allocator behind an empty scope, and the n-ary function declaration helper.

module JsPrinter {
  import opened Wrappers
  import opened Strings
  import opened JavaScript
  import JavaScriptFacts

  // ---------------------------------------------------------------------------------------
  // Argument lists
  // ---------------------------------------------------------------------------------------

  lemma {:induction false} FormatAllIndex(es: seq<Expr>, b: Bindings, i: nat)
    requires i < |es|
    ensures FormatAll(es, b)[i] == Format(es[i], b)
  {
    if i > 0 {
      FormatAllIndex(es[1..], b, i - 1);
    }
  }

  lemma {:induction false} JoinStep(parts: seq<string>, i: nat, sep: string)
    requires i < |parts|
    ensures Join(parts[..i + 1], sep) == Join(parts[..i], sep) + (if i == 0 then "" else sep) + parts[i]
  {
    assert parts[..i + 1] == parts[..i] + [parts[i]];
    if i == 0 {
      assert parts[..1] == [parts[0]];
    } else {
      JoinSnoc(parts[..i], parts[i], sep);
    }
  }

  /** Appends `", "`-separated arguments to `prefix` and closes the bracket, as a string builder would. */
  method AppendArguments(prefix: string, args: seq<Expr>, b: Bindings) returns (text: string)
    ensures text == prefix + Join(FormatAll(args, b), ", ") + ")"
  {
    ghost var parts := FormatAll(args, b);
    var comma := "";
    var result := prefix;
    var i := 0;
    while i < |args|
      invariant 0 <= i <= |args|
      invariant comma == (if i == 0 then "" else ", ")
      invariant result == prefix + Join(parts[..i], ", ")
    {
      var arg := Format(args[i], b);
      FormatAllIndex(args, b, i);
      JoinStep(parts, i, ", ");
      result := result + comma + arg;
      comma := ", ";
      i := i + 1;
    }
    assert parts[..i] == parts;
    text := result + ")";
  }

  /** A method call printed by the argument loop reads exactly as the recursive printer says. */
  method FormatMethodCall(receiver: Expr, name: string, args: seq<Expr>, b: Bindings) returns (text: string)
    ensures text == Format(MethodCall(receiver, name, args), b)
    ensures StartsWith(text, FormatAt(receiver, b, Atom) + "." + name + "(")
  {
    text := AppendArguments(FormatAt(receiver, b, Atom) + "." + name + "(", args, b);
  }

  /** A function call printed by the argument loop reads exactly as the recursive printer says. */
  method FormatFunCall(callee: Expr, args: seq<Expr>, b: Bindings) returns (text: string)
    ensures text == Format(FunCall(callee, args), b)
    ensures StartsWith(text, FormatAt(callee, b, Atom) + "(")
  {
    text := AppendArguments(FormatAt(callee, b, Atom) + "(", args, b);
  }

  // ---------------------------------------------------------------------------------------
  // Collecting free symbols
  // ---------------------------------------------------------------------------------------

  lemma {:induction false} FreeSymbolsOfAllSnoc(es: seq<Expr>, e: Expr)
    ensures FreeSymbolsOfAll(es + [e]) == FreeSymbolsOfAll(es) + FreeSymbols(e)
  {
    if |es| == 0 {
      assert es + [e] == [e];
      assert [e][1..] == [];
    } else {
      assert (es + [e])[1..] == es[1..] + [e];
      FreeSymbolsOfAllSnoc(es[1..], e);
    }
  }

  /**
   * The symbols of a list of expressions, collected as the source does: the first non-empty
   * list is kept as it is, and only once a second non-empty list shows up is a new list built,
   * which then takes everything that follows.
   */
  method CollectFreeSymbols(items: seq<Expr>) returns (r: seq<SymbolId>)
    ensures r == FreeSymbolsOfAll(items)
    ensures forall x :: x in r <==> x in OccursInAll(items)
  {
    r := [];
    var i := 0;
    while i < |items|
      invariant 0 <= i <= |items|
      invariant r == FreeSymbolsOfAll(items[..i])
    {
      var argSymbols := FreeSymbols(items[i]);
      assert items[..i + 1] == items[..i] + [items[i]];
      FreeSymbolsOfAllSnoc(items[..i], items[i]);
      i := i + 1;
      if |r| == 0 {
        r := argSymbols;
      } else if |argSymbols| != 0 {
        var builder := r + argSymbols;
        while i < |items|
          invariant 0 <= i <= |items|
          invariant builder == FreeSymbolsOfAll(items[..i])
        {
          assert items[..i + 1] == items[..i] + [items[i]];
          FreeSymbolsOfAllSnoc(items[..i], items[i]);
          builder := builder + FreeSymbols(items[i]);
          i := i + 1;
        }
        assert items[..i] == items;
        r := builder;
        JavaScriptFacts.AllFreeSymbolsAreOccurrences(items);
        return;
      }
    }
    assert items[..i] == items;
    JavaScriptFacts.AllFreeSymbolsAreOccurrences(items);
  }

  // ---------------------------------------------------------------------------------------
  // Fresh variable names
  // ---------------------------------------------------------------------------------------

  /** The `k`-th name tried for `base`: the base itself, then the base with 1, 2, ... appended. */
  function Candidate(base: string, k: nat): (name: string)
    ensures k == 0 <==> name == base
    ensures k > 0 ==> |name| > |base| && name[..|base|] == base
  {
    if k == 0 then base else base + NatToString(k)
  }

  lemma CandidateInjective(base: string, i: nat, j: nat)
    ensures Candidate(base, i) == Candidate(base, j) ==> i == j
  {
    if Candidate(base, i) == Candidate(base, j) && i != 0 && j != 0 {
      var x, y := NatToString(i), NatToString(j);
      assert (base + x)[|base|..] == x;
      assert (base + y)[|base|..] == y;
      NatToStringInjective(i, j);
    }
  }

  /** The first `n` candidates. */
  function Candidates(base: string, n: nat): (tried: set<string>)
    ensures forall k :: 0 <= k < n ==> Candidate(base, k) in tried
  {
    if n == 0 then {} else Candidates(base, n - 1) + {Candidate(base, n - 1)}
  }

  lemma {:induction false} CandidatesAreTheFirstN(base: string, n: nat, k: nat)
    ensures Candidate(base, k) in Candidates(base, n) <==> k < n
  {
    if n > 0 {
      CandidatesAreTheFirstN(base, n - 1, k);
      CandidateInjective(base, k, n - 1);
    }
  }

  lemma {:induction false} CandidatesSize(base: string, n: nat)
    ensures |Candidates(base, n)| == n
  {
    if n > 0 {
      CandidatesSize(base, n - 1);
      CandidatesAreTheFirstN(base, n - 1, n - 1);
    }
  }

  lemma {:induction false} SubsetSize<T>(a: set<T>, b: set<T>)
    requires a <= b
    ensures |a| <= |b|
  {
    if a != {} {
      var x :| x in a;
      SubsetSize(a - {x}, b - {x});
    }
  }

  /** The name allocator of an empty scope: the set of names handed out so far. */
  class NameScope {
    var used: set<string>

    constructor ()
      ensures used == {}
    {
      used := {};
    }

    /**
     * The first of `base`, `base1`, `base2`, ... that has not been handed out yet; it is
     * recorded as used.
     */
    method FreshVariableName(base: string) returns (name: string)
      modifies this
      ensures name !in old(used)
      ensures used == old(used) + {name}
      ensures base !in old(used) ==> name == base
      ensures exists k: nat :: name == Candidate(base, k) && forall j :: 0 <= j < k ==> Candidate(base, j) in old(used)
    {
      var candidate := base;
      var counter: nat := 1;
      ghost var tried: set<string> := {};
      while candidate in used
        invariant candidate == Candidate(base, counter - 1)
        invariant tried == Candidates(base, counter - 1)
        invariant tried <= used
        invariant used == old(used)
        decreases |used| - |tried|
      {
        CandidatesSize(base, counter - 1);
        CandidatesAreTheFirstN(base, counter - 1, counter - 1);
        CandidatesSize(base, counter);
        tried := tried + {candidate};
        SubsetSize(tried, used);
        candidate := base + NatToString(counter);
        counter := counter + 1;
      }
      used := used + {candidate};
      name := candidate;
    }
  }

  /** Two names asked of a fresh scope with the same base are the base and then the base with "1". */
  method FreshNamesFromAnEmptyScope() returns (first: string, second: string)
    ensures first == "v" && second == "v1"
  {
    var scope := new NameScope();
    first := scope.FreshVariableName("v");
    second := scope.FreshVariableName("v");
    assert NatToString(1) == "1";
    assert Candidate("v", 1) == "v1";
    assert scope.used == {"v", second};
    var k: nat :| second == Candidate("v", k) && forall j :: 0 <= j < k ==> Candidate("v", j) in {"v"};
    if k >= 2 {
      assert false;
    }
  }

  // ---------------------------------------------------------------------------------------
  // Functions with a growing parameter list
  // ---------------------------------------------------------------------------------------

  /** The name of the `i`-th parameter of an n-ary function. */
  function ParameterName(i: nat): (name: string)
    ensures |name| >= 2 && name[0] == 'p'
  {
    "p" + NatToString(i)
  }

  lemma ParameterNamesDistinct(i: nat, j: nat)
    ensures ParameterName(i) == ParameterName(j) ==> i == j
  {
    if ParameterName(i) == ParameterName(j) {
      assert ParameterName(i)[1..] == NatToString(i);
      assert ParameterName(j)[1..] == NatToString(j);
      NatToStringInjective(i, j);
    }
  }

  /** The names of the first `n` parameters, in order. */
  function ParameterNames(n: nat): (r: seq<string>)
    ensures |r| == n
  {
    if n == 0 then [] else ParameterNames(n - 1) + [ParameterName(n - 1)]
  }

  /** The first `n` parameter names are `p0`, `p1`, … and no later name is among them. */
  lemma {:induction false} ParameterNamesAreNumbered(n: nat)
    ensures forall i :: 0 <= i < n ==> ParameterNames(n)[i] == ParameterName(i)
    ensures forall m :: m >= n ==> ParameterName(m) !in ParameterNames(n)
  {
    if n > 0 {
      ParameterNamesAreNumbered(n - 1);
      forall m | m >= n
        ensures ParameterName(m) !in ParameterNames(n)
      {
        ParameterNamesDistinct(m, n - 1);
      }
    }
  }

  /** A named function whose parameters are added one at a time, after or before it is declared. */
  class FunN {
    const name: string
    var parameters: seq<string>

    /** Parameter `i` is called `p<i>`. */
    predicate Valid()
      reads this
    {
      parameters == ParameterNames(|parameters|)
    }

    constructor (name: string)
      ensures this.name == name && parameters == [] && Valid()
    {
      this.name := name;
      parameters := [];
    }

    /** A new parameter, named after the number of parameters so far. */
    method AddParameter() returns (parameter: Expr)
      requires Valid()
      modifies this
      ensures Valid()
      ensures parameter == Code(ParameterName(|old(parameters)|))
      ensures parameters == old(parameters) + [parameter.code]
      ensures parameter.code !in old(parameters)
    {
      parameter := Code(ParameterName(|parameters|));
      ParameterNamesAreNumbered(|parameters|);
      parameters := parameters + [parameter.code];
    }

    /** The declaration, built from the parameters present when it is rendered. */
    function Declaration(body: Fragment): (r: Option<string>)
      reads this
      ensures r.Some? <==> FormatStatement(Of(body), map[]).Some?
      ensures r.Some? ==> StartsWith(r.value, "function " + name + "(" + Join(parameters, ", ") + ") {\n")
      ensures r.Some? ==> r.value == "function " + name + "(" + Join(parameters, ", ") + ") {\n"
                                     + FormatStatement(Of(body), map[]).value + "\n}"
    {
      match FormatStatement(Of(body), map[])
      case None => None
      case Some(text) =>
        var header := "function " + name + "(" + Join(parameters, ", ") + ") {\n";
        assert (header + text + "\n}")[..|header|] == header;
        Some(header + text + "\n}")
    }

    /** A call passing each parameter's value; missing values make the call fail. */
    function Call(values: map<string, Expr>): (r: Option<Expr>)
      reads this
      ensures r.Some? <==> forall p :: p in parameters ==> p in values
      ensures r.Some? ==> r.value.FunCall? && r.value.callee == Code(name)
      ensures r.Some? ==> |r.value.args| == |parameters|
                          && forall i :: 0 <= i < |parameters| ==> r.value.args[i] == values[parameters[i]]
    {
      match ArgumentValues(parameters, values)
      case None => None
      case Some(args) => Some(FunCall(Code(name), args))
    }
  }

  /** The value of each of `params`, or `None` when one of them has none. */
  function ArgumentValues(params: seq<string>, values: map<string, Expr>): (r: Option<seq<Expr>>)
    ensures r.Some? <==> forall p :: p in params ==> p in values
    ensures r.Some? ==> |r.value| == |params| && forall i :: 0 <= i < |params| ==> r.value[i] == values[params[i]]
  {
    if |params| == 0 then Some([])
    else if params[0] !in values then None
    else match ArgumentValues(params[1..], values)
      case None =>
        assert exists p :: p in params[1..] && p !in values;
        None
      case Some(rest) => Some([values[params[0]]] + rest)
  }
}
