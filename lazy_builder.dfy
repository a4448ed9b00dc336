// A list builder that copies nothing until the first item is added: it starts from a base
// list and, on the first `add`, switches to a mutable list builder it then keeps extending.

module LazyBuilders {

  /** A mutable list builder: items are appended in place. */
  class ListBuilder<T> {
    var items: seq<T>

    /** A builder holding `base`. */
    constructor(base: seq<T>)
      ensures items == base
    {
      items := base;
    }

    method Add(item: T)
      modifies this
      ensures items == old(items) + [item]
    {
      items := items + [item];
    }
  }

  /** Either the untouched base list, or the builder that took over after the first add. */
  datatype LazyBuilder<T> = Persistent(base: seq<T>) | Backed(builder: ListBuilder<T>)

  function Footprint<T>(lb: LazyBuilder<T>): set<object>
  {
    if lb.Backed? then {lb.builder} else {}
  }

  /** What the builder would build now. */
  function Build<T>(lb: LazyBuilder<T>): seq<T>
    reads Footprint(lb)
  {
    match lb
    case Persistent(base) => base
    case Backed(b) => b.items
  }

  /**
   * Adds `item`: a persistent builder makes a new builder holding its base and the item; a
   * backed one appends to its builder and returns itself.
   */
  method Add<T>(lb: LazyBuilder<T>, item: T) returns (r: LazyBuilder<T>)
    modifies Footprint(lb)
    ensures r.Backed? && Build(r) == old(Build(lb)) + [item]
    ensures lb.Backed? ==> r == lb
    ensures lb.Persistent? ==> fresh(r.builder)
  {
    match lb
    case Persistent(base) =>
      var b := new ListBuilder(base);
      b.Add(item);
      r := Backed(b);
    case Backed(b) =>
      b.Add(item);
      r := lb;
  }

  /** Adds `items` one by one: the builder then builds what it did before followed by `items`. */
  method AddEach<T>(lb: LazyBuilder<T>, items: seq<T>) returns (r: LazyBuilder<T>)
    modifies Footprint(lb)
    ensures Build(r) == old(Build(lb)) + items
    ensures r.Backed? ==> fresh(r.builder) || r == lb
  {
    r := lb;
    var i := 0;
    while i < |items|
      invariant 0 <= i <= |items|
      invariant Build(r) == old(Build(lb)) + items[..i]
      invariant r.Backed? ==> fresh(r.builder) || r == lb
      invariant Footprint(r) <= Footprint(lb) || fresh(r.builder)
    {
      r := Add(r, items[i]);
      assert items[..i + 1] == items[..i] + [items[i]];
      i := i + 1;
    }
    assert items[..i] == items;
  }

  /** Starting from `base` and adding `items` one by one builds `base` followed by `items`. */
  method AddAll<T>(base: seq<T>, items: seq<T>) returns (built: seq<T>)
    ensures built == base + items
    ensures |items| == 0 ==> built == base
  {
    var lb := Persistent(base);
    var i := 0;
    while i < |items|
      invariant 0 <= i <= |items|
      invariant Build(lb) == base + items[..i]
      invariant lb.Backed? ==> fresh(lb.builder)
    {
      lb := Add(lb, items[i]);
      i := i + 1;
    }
    assert items[..i] == items;
    built := Build(lb);
  }
}
