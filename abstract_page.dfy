// A page: its `onLoad` function (declared in the page script the first time code is added to
// it, with one parameter per value the code asks for), the script URL, and the `html`
// element holding the head (the dependencies) and the body.

module Pages {
  import opened Wrappers
  import opened Strings
  import opened JavaScript
  import opened Markup
  import opened Elements
  import Components
  import JsPrinter
  import Scripts

  // ---------------------------------------------------------------------------------------
  // The html element
  // ---------------------------------------------------------------------------------------

  /** The `html` element of a page: the dependencies' elements in the head, the body elements and the body's attributes. */
  datatype HtmlElement = HtmlElement(dependencies: seq<Html>, body: seq<Html>, bodyAttributes: seq<Attribute>)

  function HeadOf(p: HtmlElement): (e: Html)
    ensures e.Element? && e.name == "head" && e.attributes == [] && e.contents == p.dependencies
  {
    FlattenOfNodes(p.dependencies);
    ElementOf("head", [], Components.Nodes(p.dependencies))
  }

  function BodyOf(p: HtmlElement): (e: Html)
    ensures e.Element? && e.name == "body" && e.attributes == p.bodyAttributes && e.contents == p.body
  {
    FlattenOfNodes(p.body);
    ElementOf("body", p.bodyAttributes, Components.Nodes(p.body))
  }

  lemma {:induction false} FlattenOfNodes(hs: seq<Html>)
    ensures Flatten(Components.Nodes(hs)) == hs
  {
    if |hs| > 0 {
      assert Components.Nodes(hs)[1..] == Components.Nodes(hs[1..]);
      FlattenOfNodes(hs[1..]);
    }
  }

  /** The page as an element: `html` holding the head, then the body. */
  function AsElement(p: HtmlElement): (e: Html)
    ensures e.Element? && e.name == "html" && e.attributes == [] && e.contents == [HeadOf(p), BodyOf(p)]
  {
    ElementOf("html", [], [Node(HeadOf(p)), Node(BodyOf(p))])
  }

  /** The same page with `code` run when the body loads; `None` where the code cannot print. */
  function WithBodyOnLoad(p: HtmlElement, code: Fragment): (r: Option<HtmlElement>)
    ensures r.Some? <==> AttributeOfScript("onload", code).Some?
    ensures r.Some? ==> r.value.dependencies == p.dependencies && r.value.body == p.body
                        && r.value.bodyAttributes == p.bodyAttributes + [AttributeOfScript("onload", code).value]
  {
    match AttributeOfScript("onload", code)
    case Some(a) => Some(HtmlElement(p.dependencies, p.body, p.bodyAttributes + [a]))
    case None => None
  }

  /** The document text: the doctype line, then the element. */
  function PageText(p: HtmlElement): (r: Option<string>)
    ensures r.Some? <==> ToString(AsElement(p)).Some?
    ensures r.Some? ==> r.value == "<!DOCTYPE html>\n" + ToString(AsElement(p)).value
  {
    match ToString(AsElement(p))
    case Some(text) => Some("<!DOCTYPE html>\n" + text)
    case None => None
  }

  // ---------------------------------------------------------------------------------------
  // The page
  // ---------------------------------------------------------------------------------------

  /** The script URL for a base path: a `/` is added to the base only when it does not end with one. */
  function ScriptUrl(basePath: string): (url: string)
    ensures EndsWith(basePath, "/") ==> url == basePath + "script.js"
    ensures !EndsWith(basePath, "/") ==> url == basePath + "/script.js"
  {
    var base := if EndsWith(basePath, "/") then basePath else basePath + "/";
    base + "script.js"
  }

  /** Parameter names as the expressions that refer to them. */
  function ParameterExprs(names: seq<string>): (r: seq<Expr>)
    ensures |r| == |names| && forall i :: 0 <= i < |names| ==> r[i] == Code(names[i])
  {
    seq(|names|, i requires 0 <= i < |names| => Code(names[i]))
  }

  /** Binding one more fresh name keeps every earlier binding. */
  lemma BindOneMore<T>(initial: map<string, T>, bound: map<string, T>, now: map<string, T>, name: string,
                       names: seq<string>, values: seq<T>, i: nat)
    requires i < |values| && |names| == i
    requires name !in bound && now == bound[name := values[i]]
    requires forall k :: 0 <= k < i ==> names[k] in bound && bound[names[k]] == values[k]
    requires forall p :: p in initial ==> p in bound && bound[p] == initial[p]
    ensures forall k :: 0 <= k < i + 1 ==> (names + [name])[k] in now && now[(names + [name])[k]] == values[k]
    ensures forall p :: p in initial ==> p in now && now[p] == initial[p]
  {
  }

  lemma NewParameterKeys(parameters: seq<string>, p: string)
    ensures (set q | q in parameters + [p]) == (set q | q in parameters) + {p}
  {
  }

  class AbstractPage<T> {
    const script: Scripts.Script
    const onLoad: JsPrinter.FunN
    /** The value, computed from the page data, of each parameter of `onLoad`. */
    var onLoadParameters: map<string, T -> Expr>
    var loadBody: seq<Fragment>

    ghost predicate Valid()
      reads this, onLoad
    {
      onLoad.Valid() && onLoad.name == "onLoad"
      && onLoadParameters.Keys == set p | p in onLoad.parameters
    }

    constructor(script: Scripts.Script)
      ensures Valid() && this.script == script && fresh(onLoad)
      ensures onLoad.parameters == [] && loadBody == []
    {
      this.script := script;
      onLoad := new JsPrinter.FunN("onLoad");
      onLoadParameters := map[];
      loadBody := [];
    }

    /**
     * Adds one piece of code to `onLoad`.  The code asks for the values `values` (one new
     * parameter each, in order) and is built from the parameters it receives by `code`.  The
     * first call declares `onLoad` in the script; if the script no longer accepts members,
     * nothing changes.
     */
    method AddToOnLoad(values: seq<T -> Expr>, code: seq<Expr> -> Fragment) returns (ok: bool)
      requires Valid()
      modifies this, onLoad, script
      ensures Valid()
      ensures old(loadBody) != [] ==> ok && script.members == old(script.members)
      ensures old(loadBody) == [] ==> (ok <==> !old(script.exposed))
      ensures old(loadBody) == [] && ok ==> script.members == old(script.members) + [Scripts.OnLoadDeclaration]
      ensures !ok ==> loadBody == old(loadBody) && onLoad.parameters == old(onLoad.parameters)
                      && onLoadParameters == old(onLoadParameters) && script.members == old(script.members)
      ensures ok ==> |onLoad.parameters| == |old(onLoad.parameters)| + |values|
                     && onLoad.parameters[..|old(onLoad.parameters)|] == old(onLoad.parameters)
                     && (forall i :: 0 <= i < |values| ==> onLoadParameters[onLoad.parameters[|old(onLoad.parameters)| + i]] == values[i])
                     && |loadBody| == |old(loadBody)| + 1 && loadBody[..|old(loadBody)|] == old(loadBody)
      ensures ok ==> loadBody == old(loadBody) + [code(ParameterExprs(onLoad.parameters[|old(onLoad.parameters)|..]))]
      ensures ok ==> forall p :: p in old(onLoadParameters) ==> p in onLoadParameters && onLoadParameters[p] == old(onLoadParameters)[p]
      ensures script.exposed == old(script.exposed) && script.url == old(script.url)
    {
      if loadBody == [] {
        ok := script.Add(Scripts.OnLoadDeclaration);
        if !ok {
          return;
        }
      }
      ok := true;
      var parameters, names := AddParameters(values);
      loadBody := loadBody + [code(parameters)];
      assert onLoad.parameters[..|old(onLoad.parameters)|] == old(onLoad.parameters);
      assert onLoad.parameters[|old(onLoad.parameters)|..] == names;
      forall k | 0 <= k < |values|
        ensures onLoad.parameters[|old(onLoad.parameters)| + k] == names[k]
      {
      }
    }

    /** One new parameter of `onLoad` per value, in order, each bound to its value; `names` are their names. */
    method AddParameters(values: seq<T -> Expr>) returns (parameters: seq<Expr>, names: seq<string>)
      requires Valid()
      modifies this, onLoad
      ensures Valid()
      ensures onLoad.parameters == old(onLoad.parameters) + names
      ensures |names| == |parameters| == |values|
      ensures forall i :: 0 <= i < |values| ==> parameters[i] == Code(names[i])
      ensures forall i :: 0 <= i < |values| ==> onLoadParameters[names[i]] == values[i]
      ensures forall p :: p in old(onLoadParameters) ==> p in onLoadParameters && onLoadParameters[p] == old(onLoadParameters)[p]
      ensures parameters == ParameterExprs(names)
      ensures loadBody == old(loadBody)
    {
      parameters, names := [], [];
      var i := 0;
      while i < |values|
        invariant 0 <= i <= |values| && Valid()
        invariant |names| == |parameters| == i
        invariant onLoad.parameters == old(onLoad.parameters) + names
        invariant forall k :: 0 <= k < i ==> parameters[k] == Code(names[k])
        invariant forall k :: 0 <= k < i ==> names[k] in onLoadParameters && onLoadParameters[names[k]] == values[k]
        invariant forall p :: p in old(onLoadParameters) ==> p in onLoadParameters && onLoadParameters[p] == old(onLoadParameters)[p]
        invariant loadBody == old(loadBody)
      {
        ghost var bound := onLoadParameters;
        var parameter := AddParameter(values[i]);
        BindOneMore(old(onLoadParameters), bound, onLoadParameters, parameter.code, names, values, i);
        names := names + [parameter.code];
        parameters := parameters + [parameter];
        i := i + 1;
      }
      assert parameters == ParameterExprs(names);
    }

    /** One new parameter of `onLoad`, bound to `value`. */
    method AddParameter(value: T -> Expr) returns (parameter: Expr)
      requires Valid()
      modifies this, onLoad
      ensures Valid()
      ensures parameter.Code? && parameter.code !in old(onLoad.parameters)
      ensures onLoad.parameters == old(onLoad.parameters) + [parameter.code]
      ensures onLoadParameters == old(onLoadParameters)[parameter.code := value]
      ensures loadBody == old(loadBody)
    {
      parameter := onLoad.AddParameter();
      NewParameterKeys(old(onLoad.parameters), parameter.code);
      onLoadParameters := onLoadParameters[parameter.code := value];
    }

    method SetBasePath(basePath: string)
      modifies script
      ensures script.url == ScriptUrl(basePath)
      ensures script.members == old(script.members) && script.exposed == old(script.exposed)
    {
      var base := basePath;
      if !EndsWith(base, "/") {
        base := base + "/";
      }
      script.SetUrl(base + "script.js");
    }

    /**
     * Renders the page script.  The `onLoad` member is declared only now, with the parameters
     * `onLoad` has at this point and the whole load body as its body; every other member is its
     * own text.  `None` where the script holds the declaration and the load body cannot print
     * (the source throws once the script is already marked rendered).
     */
    method RenderScript() returns (text: Option<string>)
      requires Valid()
      modifies script
      ensures script.exposed && script.members == old(script.members) && script.url == old(script.url)
      ensures text.None? <==> Scripts.OnLoadDeclaration in script.members && FormatStatement(SeqOf(loadBody), map[]).None?
      ensures text.Some? ==> |Scripts.Texts(script.members, Scripts.RenderWith(DeclarationText()))| == |script.members|
                             && text.value == Concat(Scripts.Texts(script.members, Scripts.RenderWith(DeclarationText())))
      ensures text.Some? ==> forall i :: 0 <= i < |script.members| && script.members[i] == Scripts.OnLoadDeclaration ==>
                Scripts.Texts(script.members, Scripts.RenderWith(DeclarationText()))[i]
                == "function onLoad(" + Join(onLoad.parameters, ", ") + ") {\n" + FormatStatement(SeqOf(loadBody), map[]).value + "\n}"
      ensures text.Some? ==> forall i :: 0 <= i < |script.members| && script.members[i].Member? ==>
                Scripts.Texts(script.members, Scripts.RenderWith(DeclarationText()))[i] == script.members[i].text
    {
      var rendered := script.Render(Scripts.RenderWith(DeclarationText()));
      if Scripts.OnLoadDeclaration in script.members && FormatStatement(SeqOf(loadBody), map[]).None? {
        text := None;
      } else {
        text := Some(rendered);
      }
    }

    /** The text declaring `onLoad` now, or the empty text where the load body cannot print. */
    function DeclarationText(): (r: string)
      requires Valid()
      reads this, onLoad
      ensures FormatStatement(SeqOf(loadBody), map[]).Some? ==>
                r == "function onLoad(" + Join(onLoad.parameters, ", ") + ") {\n" + FormatStatement(SeqOf(loadBody), map[]).value + "\n}"
    {
      match onLoad.Declaration(Statement(SeqOf(loadBody)))
      case Some(d) => d
      case None => ""
    }

    /** The members appended to the script, one after the other. */
    method AddToScript(texts: seq<string>) returns (added: nat)
      modifies script
      ensures added <= |texts| && script.exposed == old(script.exposed) && script.url == old(script.url)
      ensures !old(script.exposed) ==> added == |texts|
      ensures old(script.exposed) ==> added == 0
      ensures script.members == old(script.members) + Members(texts[..added])
    {
      added := 0;
      while added < |texts|
        invariant added <= |texts|
        invariant script.exposed == old(script.exposed) && script.url == old(script.url)
        invariant !old(script.exposed) || added == 0
        invariant script.members == old(script.members) + Members(texts[..added])
      {
        var ok := script.Add(Scripts.Member(texts[added]));
        if !ok {
          return;
        }
        assert texts[..added + 1] == texts[..added] + [texts[added]];
        MembersSnoc(texts[..added], texts[added]);
        added := added + 1;
      }
    }

    /**
     * The page for `data`: the script is loaded after the dependencies when it has members,
     * and the body calls `onLoad` with the parameters' values when code was added to it.
     */
    function Html(data: T, dependencies: seq<Html>, body: seq<Html>): (p: HtmlElement)
      requires Valid()
      reads this, onLoad, script
      ensures script.IsEmpty() ==> p.dependencies == dependencies
      ensures !script.IsEmpty() ==> p.dependencies == dependencies + [script.AsElement()]
      ensures p.body == body
      ensures loadBody == [] <==> p.bodyAttributes == []
      ensures loadBody != [] ==> |p.bodyAttributes| == 1 && AttributeName(p.bodyAttributes[0]) == "onload"
    {
      var actualDependencies := if script.IsEmpty() then dependencies else dependencies + [script.AsElement()];
      var page := HtmlElement(actualDependencies, body, []);
      if loadBody == [] then page
      else
        var call := onLoad.Call(map p | p in onLoadParameters :: onLoadParameters[p](data));
        assert call.Some?;
        WithBodyOnLoad(page, Expression(call.value)).value
    }

    /** Once code was added, the body's `onload` calls `onLoad` with each parameter's value for `data`, in order. */
    lemma BodyCallsOnLoad(data: T, dependencies: seq<Html>, body: seq<Html>)
      requires Valid() && loadBody != []
      ensures exists call: Expr ::
                call.FunCall? && call.callee == Code("onLoad") && |call.args| == |onLoad.parameters|
                && (forall i :: 0 <= i < |onLoad.parameters| ==> call.args[i] == onLoadParameters[onLoad.parameters[i]](data))
                && AttributeOfScript("onload", Expression(call)) == Some(Html(data, dependencies, body).bodyAttributes[0])
    {
      var call := onLoad.Call(map p | p in onLoadParameters :: onLoadParameters[p](data)).value;
      assert AttributeOfScript("onload", Expression(call)) == Some(Html(data, dependencies, body).bodyAttributes[0]);
    }
  }

  function Members(texts: seq<string>): (r: seq<Scripts.ScriptMember>)
    ensures |r| == |texts| && forall i :: 0 <= i < |texts| ==> r[i] == Scripts.Member(texts[i])
  {
    if |texts| == 0 then [] else [Scripts.Member(texts[0])] + Members(texts[1..])
  }

  lemma MembersSnoc(texts: seq<string>, t: string)
    ensures Members(texts + [t]) == Members(texts) + [Scripts.Member(t)]
  {
  }
}
