// HTTP requests issued from the browser.  A plain request prints the `XMLHttpRequest` code
// that sends it; a parametric request remembers the headers set on it and hands them to every
// concrete request it makes, including the headers set after the request was made.

module HttpRequests {
  import opened Strings
  import opened JavaScript

  /** The statement setting one request header on `x`. */
  function SetRequestHeader(name: string, value: Expr): string
  {
    "x.setRequestHeader(" + Format(StringLiteral(name), map[]) + ", " + Format(value, map[]) + ");"
  }

  /** `order` lists each key of `headers` exactly once (the map's own iteration order). */
  predicate EnumeratesKeys(order: seq<string>, headers: map<string, Expr>)
  {
    (forall h :: h in headers ==> h in order) && (forall h :: h in order ==> h in headers)
    && (forall i, j :: 0 <= i < j < |order| ==> order[i] != order[j])
  }

  /** One header line per name of `order`, in that order. */
  function HeaderLines(order: seq<string>, headers: map<string, Expr>): (r: seq<string>)
    requires forall h :: h in order ==> h in headers
    ensures |r| == |order|
    ensures forall i :: 0 <= i < |order| ==> r[i] == SetRequestHeader(order[i], headers[order[i]])
  {
    if |order| == 0 then [] else [SetRequestHeader(order[0], headers[order[0]])] + HeaderLines(order[1..], headers)
  }

  /** A request that is sent once: the HTTP method (`verb`), the URL expression, the body text, and the headers set so far. */
  class Impl {
    const verb: string
    const url: Expr
    const body: string
    var headers: map<string, Expr>

    constructor(verb: string, url: Expr, body: string)
      ensures this.verb == verb && this.url == url && this.body == body && headers == map[]
    {
      this.verb := verb;
      this.url := url;
      this.body := body;
      headers := map[];
    }

    /** Records a header; a later value for the same name replaces the earlier one. */
    method SetHeader(name: string, value: Expr)
      modifies this
      ensures headers == old(headers)[name := value]
    {
      headers := headers[name := value];
    }

    /**
     * The statements sending the request, in order: create `x`, install the ready-state
     * handler running `callback` on the response text, open the request, set each header,
     * then send the body.
     */
    function Statements(callback: string -> string, order: seq<string>): (r: seq<string>)
      requires EnumeratesKeys(order, headers)
      reads this
      ensures |order| == |headers| && |r| == |order| + 4
      ensures r[0] == "let x = new XMLHttpRequest();"
      ensures r[1] == "x.onreadystatechange = () => {if (x.readyState != 4) return;" + callback("x.responseText") + "};"
      ensures r[2] == "x.open(" + Format(StringLiteral(verb), map[]) + ", " + Format(url, map[]) + ");"
      ensures forall i :: 0 <= i < |order| ==> r[3 + i] == SetRequestHeader(order[i], headers[order[i]])
      ensures r[|r| - 1] == "x.send(" + body + ");"
    {
      KeysCount(order, headers);
      var create := "let x = new XMLHttpRequest();";
      var handler := "x.onreadystatechange = () => {if (x.readyState != 4) return;" + callback("x.responseText") + "};";
      var open := "x.open(" + Format(StringLiteral(verb), map[]) + ", " + Format(url, map[]) + ");";
      var send := "x.send(" + body + ");";
      [create, handler, open] + HeaderLines(order, headers) + [send]
    }

    /** The code sending the request, with `callback` applied to the response text. */
    function Subscribe(callback: string -> string, order: seq<string>): (text: string)
      requires EnumeratesKeys(order, headers)
      reads this
      ensures StartsWith(text, "let x = new XMLHttpRequest();")
      ensures EndsWith(text, "x.send(" + body + ");")
      ensures text == Concat(Statements(callback, order))
      ensures text == "let x = new XMLHttpRequest();"
                      + ("x.onreadystatechange = () => {if (x.readyState != 4) return;" + callback("x.responseText") + "};")
                      + ("x.open(" + Format(StringLiteral(verb), map[]) + ", " + Format(url, map[]) + ");")
                      + Concat(HeaderLines(order, headers))
                      + ("x.send(" + body + ");")
    {
      var create := "let x = new XMLHttpRequest();";
      var handler := "x.onreadystatechange = () => {if (x.readyState != 4) return;" + callback("x.responseText") + "};";
      var open := "x.open(" + Format(StringLiteral(verb), map[]) + ", " + Format(url, map[]) + ");";
      var send := "x.send(" + body + ");";
      var lines := HeaderLines(order, headers);
      ConcatOfStatements(create, handler, open, lines, send);
      Affixes(create, handler + open + Concat(lines), send);
      Concat([create, handler, open] + lines + [send])
    }
  }

  lemma ConcatOfStatements(create: string, handler: string, open: string, lines: seq<string>, send: string)
    ensures Concat([create, handler, open] + lines + [send]) == create + handler + open + Concat(lines) + send
  {
    var first := [create, handler, open];
    assert first + lines + [send] == first + (lines + [send]);
    ConcatAppend(first, lines + [send]);
    ConcatSnoc(lines, send);
    assert first[1..] == [handler, open] && first[1..][1..] == [open];
  }

  lemma Affixes(a: string, m: string, z: string)
    ensures StartsWith(a + m + z, a) && EndsWith(a + m + z, z)
  {
    var s := a + m + z;
    assert s[..|a|] == a;
    assert s[|s| - |z|..] == z;
  }

  /** A list enumerating the keys of a map without repetition is as long as the map. */
  lemma KeysCount(order: seq<string>, headers: map<string, Expr>)
    requires EnumeratesKeys(order, headers)
    ensures |order| == |headers|
  {
    DistinctCount(order);
    assert (set h | h in order) == headers.Keys;
  }

  lemma {:induction false} DistinctCount(order: seq<string>)
    requires forall i, j :: 0 <= i < j < |order| ==> order[i] != order[j]
    ensures |set h | h in order| == |order|
  {
    if |order| > 0 {
      var rest := order[1..];
      DistinctCount(rest);
      assert (set h | h in order) == {order[0]} + (set h | h in rest);
      assert order[0] !in rest;
    }
  }

  /**
   * A request with parameters.  Each concrete request it makes receives the headers recorded
   * so far; a header set later is forwarded to every request already made.
   */
  class Parametric {
    var headers: map<string, Expr>
    var requests: seq<Impl>

    /** Every request made so far carries every recorded header, with its recorded value. */
    predicate Propagated()
      reads this, requests
    {
      forall r, h :: r in requests && h in headers ==> h in r.headers && r.headers[h] == headers[h]
    }

    constructor()
      ensures headers == map[] && requests == [] && Propagated()
    {
      headers := map[];
      requests := [];
    }

    /** Applies every recorded header to `next`, registers it and returns it. */
    method CopyHeaders(next: Impl) returns (r: Impl)
      requires Propagated()
      modifies this, next
      ensures r == next && requests == old(requests) + [next] && headers == old(headers)
      ensures next.headers == old(next.headers) + headers
      ensures Propagated()
    {
      var remaining := headers.Keys;
      while remaining != {}
        invariant remaining <= headers.Keys && headers == old(headers) && requests == old(requests)
        invariant next.headers == old(next.headers) + map h | h in headers.Keys - remaining :: headers[h]
        decreases remaining
      {
        var h :| h in remaining;
        next.SetHeader(h, headers[h]);
        remaining := remaining - {h};
      }
      assert (map h | h in headers.Keys - remaining :: headers[h]) == headers;
      requests := requests + [next];
      r := next;
    }

    /** Records a header and forwards it to every request made so far. */
    method SetHeader(name: string, value: Expr)
      requires Propagated()
      modifies this, requests
      ensures headers == old(headers)[name := value] && requests == old(requests)
      ensures forall r :: r in requests ==> r.headers == old(r.headers)[name := value]
      ensures Propagated()
    {
      headers := headers[name := value];
      var i := 0;
      while i < |requests|
        invariant 0 <= i <= |requests|
        invariant headers == old(headers)[name := value] && requests == old(requests)
        invariant forall r :: r in requests ==>
                    r.headers == if r in requests[..i] then old(r.headers)[name := value] else old(r.headers)
      {
        requests[i].SetHeader(name, value);
        assert requests[..i + 1] == requests[..i] + [requests[i]];
        i := i + 1;
      }
      assert requests[..i] == requests;
    }
  }
}
