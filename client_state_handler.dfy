// The browser-side handler of state updates.  Each registered handler has a matcher, which
// states the conditions an event must meet, and a body built from the (wrapped) event.
// Handlers whose conditions form the same set share one branch of a single `if` / `else if`
// chain; the branches come in the order their condition sets first appear, and each runs its
// handlers in registration order.

module ClientStateHandlers {
  import opened Wrappers
  import opened Strings
  import opened JavaScript
  import Pages
  import Scripts
  import JavaScriptFacts

  /** What a matcher asks of the event, in the order it asks. */
  datatype Expectation =
    | Expect(condition: Expr)
      /** The event must be of the type of the generated class named `className`. */
    | ExpectSameType(className: string, event: Expr)

  /** A matcher's answer for an event: its expectations, and the event as the handler receives it. */
  datatype Match = Match(expectations: seq<Expectation>, wrapped: Expr)

  datatype EventHandler = EventHandler(matcher: Expr -> Match, handler: Expr -> Fragment)

  /**
   * A condition as the handler keeps it: the expression with the text it prints as where no
   * declaration is allowed.  Two conditions are the same when their texts are.
   */
  datatype ConditionKey = ConditionKey(expr: Expr, text: string)

  function KeyOf(c: Expr): ConditionKey
  {
    ConditionKey(c, Format(c, map[]))
  }

  // ---------------------------------------------------------------------------------------
  // Conditions
  // ---------------------------------------------------------------------------------------

  /** The condition an expectation adds; `None` when a type check names a class whose name does not start with "Js". */
  function ConditionOf(x: Expectation): (r: Option<Expr>)
    ensures x.Expect? ==> r == Some(x.condition)
    ensures x.ExpectSameType? ==> (r.Some? <==> StartsWith(x.className, "Js"))
    ensures x.ExpectSameType? && r.Some? ==> r.value == TypeCheck(x.event, x.className[2..])
  {
    match x
    case Expect(c) => Some(c)
    case ExpectSameType(className, event) =>
      if StartsWith(className, "Js") then Some(TypeCheck(event, className[2..])) else None
  }

  /** The event's `@type` property (read with brackets, the name not being an identifier) is `typeName`. */
  function TypeCheck(event: Expr, typeName: string): Expr
  {
    Eq(ArrayAccess(event, StringLiteral("@type")), StringLiteral(typeName))
  }

  /** Reading `@type` through the general property access gives the bracketed form. */
  lemma TypeCheckReadsTheTypeProperty(event: Expr, typeName: string)
    ensures TypeCheck(event, typeName) == Eq(DotOf(event, "@type"), StringLiteral(typeName))
  {
    assert !IsIdentifierStart('@');
  }

  /** Conditions are told apart by their text. */
  function Key(c: ConditionKey): string
  {
    c.text
  }

  /** The texts of the conditions: two condition lists with the same keys stand for the same set. */
  function Keys(conds: seq<ConditionKey>): set<string>
  {
    if |conds| == 0 then {} else Keys(conds[..|conds| - 1]) + {Key(conds[|conds| - 1])}
  }

  /** The keys are exactly the texts of the conditions. */
  lemma {:induction false} KeysAreTheTexts(conds: seq<ConditionKey>)
    ensures forall i :: 0 <= i < |conds| ==> Key(conds[i]) in Keys(conds)
    ensures forall k :: k in Keys(conds) ==> exists i :: 0 <= i < |conds| && Key(conds[i]) == k
  {
    if |conds| > 0 {
      var init := conds[..|conds| - 1];
      KeysAreTheTexts(init);
      assert forall i :: 0 <= i < |init| ==> init[i] == conds[i];
    }
  }

  lemma KeysSnoc(conds: seq<ConditionKey>, c: ConditionKey)
    ensures Keys(conds + [c]) == Keys(conds) + {Key(c)}
  {
    assert (conds + [c])[..|conds|] == conds;
  }

  predicate DistinctKeys(conds: seq<ConditionKey>)
  {
    forall i, j :: 0 <= i < j < |conds| ==> Key(conds[i]) != Key(conds[j])
  }

  /** Insertion into an ordered set of conditions: a condition with a text already present is dropped. */
  function AddCondition(conds: seq<ConditionKey>, c: ConditionKey): (r: seq<ConditionKey>)
    ensures Keys(r) == Keys(conds) + {Key(c)}
    ensures Key(c) in Keys(conds) ==> r == conds
    ensures Key(c) !in Keys(conds) ==> r == conds + [c]
  {
    if Key(c) in Keys(conds) then conds
    else
      KeysSnoc(conds, c);
      conds + [c]
  }

  lemma AddConditionKeepsKeysDistinct(conds: seq<ConditionKey>, c: ConditionKey)
    requires DistinctKeys(conds)
    ensures DistinctKeys(AddCondition(conds, c))
  {
    if Key(c) !in Keys(conds) {
      KeysAreTheTexts(conds);
    }
  }

  /** The condition each expectation adds, in the order the matcher states them. */
  function ConditionsOf(xs: seq<Expectation>): (r: seq<Option<Expr>>)
    ensures |r| == |xs|
  {
    seq(|xs|, i requires 0 <= i < |xs| => ConditionOf(xs[i]))
  }

  lemma EveryCondition(xs: seq<Expectation>)
    ensures forall i :: 0 <= i < |xs| ==> ConditionsOf(xs)[i] == ConditionOf(xs[i])
  {
  }

  /** The conditions of `cs` without repeated texts, in first-seen order; `None` once one is missing. */
  function Gathered(cs: seq<Option<Expr>>): Option<seq<ConditionKey>>
  {
    if |cs| == 0 then Some([])
    else
      match Gathered(cs[..|cs| - 1])
      case None => None
      case Some(conds) =>
        match cs[|cs| - 1]
        case None => None
        case Some(c) => Some(AddCondition(conds, KeyOf(c)))
  }

  /** The conditions of a matcher's expectations, without repeated texts, in first-seen order; `None` when a type check fails. */
  function Conditions(xs: seq<Expectation>): Option<seq<ConditionKey>>
  {
    Gathered(ConditionsOf(xs))
  }

  /** A missing condition makes the gathering fail. */
  lemma {:induction false} GatheredFailsAt(cs: seq<Option<Expr>>, i: nat)
    requires i < |cs| && cs[i].None?
    ensures Gathered(cs).None?
  {
    var init := cs[..|cs| - 1];
    if i < |init| && Gathered(init).Some? {
      assert init[i] == cs[i];
      GatheredFailsAt(init, i);
    }
  }

  /** With every condition present the gathering succeeds. */
  lemma {:induction false} GatheredSucceeds(cs: seq<Option<Expr>>)
    requires forall i :: 0 <= i < |cs| ==> cs[i].Some?
    ensures Gathered(cs).Some?
  {
    if |cs| > 0 {
      var init := cs[..|cs| - 1];
      assert forall i :: 0 <= i < |init| ==> init[i] == cs[i];
      GatheredSucceeds(init);
    }
  }

  /** Gathering fails exactly when some type check fails. */
  lemma ConditionsFailExactly(xs: seq<Expectation>)
    ensures Conditions(xs).None? <==> exists i :: 0 <= i < |xs| && ConditionOf(xs[i]).None?
  {
    var cs := ConditionsOf(xs);
    EveryCondition(xs);
    if exists i :: 0 <= i < |xs| && ConditionOf(xs[i]).None? {
      var i :| 0 <= i < |xs| && ConditionOf(xs[i]).None?;
      GatheredFailsAt(cs, i);
    } else {
      GatheredSucceeds(cs);
    }
  }

  /** The last condition is added to those gathered before it. */
  lemma GatheredStep(cs: seq<Option<Expr>>)
    requires |cs| > 0 && Gathered(cs).Some?
    ensures Gathered(cs[..|cs| - 1]).Some? && cs[|cs| - 1].Some?
    ensures Gathered(cs).value == AddCondition(Gathered(cs[..|cs| - 1]).value, KeyOf(cs[|cs| - 1].value))
  {
  }

  lemma {:induction false} GatheredKeysAreDistinct(cs: seq<Option<Expr>>)
    requires Gathered(cs).Some?
    ensures DistinctKeys(Gathered(cs).value)
  {
    if |cs| > 0 {
      var init := cs[..|cs| - 1];
      GatheredStep(cs);
      GatheredKeysAreDistinct(init);
      AddConditionKeepsKeysDistinct(Gathered(init).value, KeyOf(cs[|cs| - 1].value));
    }
  }

  /** No two conditions kept have the same text. */
  lemma ConditionKeysAreDistinct(xs: seq<Expectation>)
    requires Conditions(xs).Some?
    ensures DistinctKeys(Conditions(xs).value)
  {
    GatheredKeysAreDistinct(ConditionsOf(xs));
  }

  lemma {:induction false} GatheredKeepsAll(cs: seq<Option<Expr>>)
    requires Gathered(cs).Some?
    ensures forall i :: 0 <= i < |cs| ==> cs[i].Some? && Key(KeyOf(cs[i].value)) in Keys(Gathered(cs).value)
  {
    if |cs| > 0 {
      var init := cs[..|cs| - 1];
      GatheredStep(cs);
      GatheredKeepsAll(init);
      var conds, c := Gathered(init).value, KeyOf(cs[|cs| - 1].value);
      var keys := Keys(Gathered(cs).value);
      assert keys == Keys(conds) + {Key(c)};
      forall i | 0 <= i < |cs|
        ensures cs[i].Some? && Key(KeyOf(cs[i].value)) in keys
      {
        if i < |init| {
          assert cs[i] == init[i];
        }
      }
    }
  }

  /** Every condition the matcher stated has its text among the conditions kept. */
  lemma StatedConditionsAreKept(xs: seq<Expectation>)
    requires Conditions(xs).Some?
    ensures forall i :: 0 <= i < |xs| ==> ConditionOf(xs[i]).Some? && Key(KeyOf(ConditionOf(xs[i]).value)) in Keys(Conditions(xs).value)
  {
    var cs := ConditionsOf(xs);
    GatheredKeepsAll(cs);
    EveryCondition(xs);
    forall i | 0 <= i < |xs|
      ensures ConditionOf(xs[i]).Some? && Key(KeyOf(ConditionOf(xs[i]).value)) in Keys(Conditions(xs).value)
    {
      assert cs[i] == ConditionOf(xs[i]);
    }
  }

  lemma {:induction false} GatheredKeepsOnlyStated(cs: seq<Option<Expr>>)
    requires Gathered(cs).Some?
    ensures forall j :: 0 <= j < |Gathered(cs).value| ==>
              exists i :: 0 <= i < |cs| && cs[i].Some? && KeyOf(cs[i].value) == Gathered(cs).value[j]
  {
    if |cs| > 0 {
      var init := cs[..|cs| - 1];
      GatheredStep(cs);
      GatheredKeepsOnlyStated(init);
      var conds, c := Gathered(init).value, KeyOf(cs[|cs| - 1].value);
      var r := Gathered(cs).value;
      assert r == conds || r == conds + [c];
      forall j | 0 <= j < |r|
        ensures exists i :: 0 <= i < |cs| && cs[i].Some? && KeyOf(cs[i].value) == r[j]
      {
        if j < |conds| {
          var i :| 0 <= i < |init| && init[i].Some? && KeyOf(init[i].value) == conds[j];
          assert cs[i] == init[i];
        } else {
          assert KeyOf(cs[|cs| - 1].value) == r[j];
        }
      }
    }
  }

  /** Every condition kept is one the matcher stated. */
  lemma KeptConditionsWereStated(xs: seq<Expectation>)
    requires Conditions(xs).Some?
    ensures forall j :: 0 <= j < |Conditions(xs).value| ==>
              exists i :: 0 <= i < |xs| && ConditionOf(xs[i]).Some? && KeyOf(ConditionOf(xs[i]).value) == Conditions(xs).value[j]
  {
    var cs := ConditionsOf(xs);
    GatheredKeepsOnlyStated(cs);
    EveryCondition(xs);
    forall j | 0 <= j < |Conditions(xs).value|
      ensures exists i :: 0 <= i < |xs| && ConditionOf(xs[i]).Some? && KeyOf(ConditionOf(xs[i]).value) == Conditions(xs).value[j]
    {
      var i :| 0 <= i < |cs| && cs[i].Some? && KeyOf(cs[i].value) == Conditions(xs).value[j];
      assert cs[i] == ConditionOf(xs[i]);
    }
  }

  // ---------------------------------------------------------------------------------------
  // Grouping handlers by condition set
  // ---------------------------------------------------------------------------------------

  /** One branch of the chain: its conditions (as first seen) and the handler bodies sharing them. */
  datatype Group = Group(conditions: seq<ConditionKey>, fragments: seq<Fragment>)

  /** Appends `x` unless it is already there (first occurrences kept, in order). */
  function AddNew<T(==)>(s: seq<T>, x: T): (r: seq<T>)
    ensures x in s ==> r == s
    ensures x !in s ==> r == s + [x]
  {
    if x in s then s else s + [x]
  }

  /** The elements of `s` without repetitions, in order of first occurrence. */
  function Unique<T(==)>(s: seq<T>): (r: seq<T>)
    ensures forall i :: 0 <= i < |r| ==> r[i] in s
    ensures forall i :: 0 <= i < |s| ==> s[i] in r
    ensures forall i, j :: 0 <= i < j < |r| ==> r[i] != r[j]
  {
    if |s| == 0 then []
    else
      var r := AddNew(Unique(s[..|s| - 1]), s[|s| - 1]);
      assert s == s[..|s| - 1] + [s[|s| - 1]];
      r
  }

  /** The condition sets of the groups, in order. */
  function GroupKeys(groups: seq<Group>): (r: seq<set<string>>)
    ensures |r| == |groups| && forall i :: 0 <= i < |groups| ==> r[i] == Keys(groups[i].conditions)
  {
    if |groups| == 0 then [] else [Keys(groups[0].conditions)] + GroupKeys(groups[1..])
  }

  /** The bodies of the group whose condition set is `key`; none when there is no such group. */
  function FragmentsOf(groups: seq<Group>, key: set<string>): seq<Fragment>
  {
    if |groups| == 0 then []
    else if Keys(groups[0].conditions) == key then groups[0].fragments
    else FragmentsOf(groups[1..], key)
  }

  /**
   * Multimap put keyed by condition set: the body joins the group with the same set (once), or
   * starts a new group at the end.
   */
  function PutGroup(groups: seq<Group>, conds: seq<ConditionKey>, f: Fragment): seq<Group>
  {
    if |groups| == 0 then [Group(conds, [f])]
    else if Keys(groups[0].conditions) == Keys(conds) then [Group(groups[0].conditions, AddNew(groups[0].fragments, f))] + groups[1..]
    else [groups[0]] + PutGroup(groups[1..], conds, f)
  }

  /** A put adds the condition set as a new key at the end, unless it is already a key. */
  lemma {:induction false} PutGroupKeys(groups: seq<Group>, conds: seq<ConditionKey>, f: Fragment)
    ensures GroupKeys(PutGroup(groups, conds, f)) == AddNew(GroupKeys(groups), Keys(conds))
  {
    var r := PutGroup(groups, conds, f);
    if |groups| == 0 {
    } else if Keys(groups[0].conditions) == Keys(conds) {
      assert r[1..] == groups[1..];
      assert GroupKeys(r) == GroupKeys(groups) && GroupKeys(groups)[0] == Keys(conds);
    } else {
      var rest := PutGroup(groups[1..], conds, f);
      PutGroupKeys(groups[1..], conds, f);
      assert r[0] == groups[0] && r[1..] == rest;
      assert GroupKeys(groups) == [Keys(groups[0].conditions)] + GroupKeys(groups[1..]);
      assert GroupKeys(r) == [Keys(groups[0].conditions)] + GroupKeys(rest);
    }
  }

  /** A put adds the body to the group of its condition set, once, and leaves the other groups alone. */
  lemma {:induction false} PutGroupFragments(groups: seq<Group>, conds: seq<ConditionKey>, f: Fragment, key: set<string>)
    ensures FragmentsOf(PutGroup(groups, conds, f), key)
            == if key == Keys(conds) then AddNew(FragmentsOf(groups, key), f) else FragmentsOf(groups, key)
  {
    if |groups| > 0 && Keys(groups[0].conditions) != Keys(conds) {
      var r := PutGroup(groups, conds, f);
      PutGroupFragments(groups[1..], conds, f, key);
      assert r[0] == groups[0] && r[1..] == PutGroup(groups[1..], conds, f);
    }
  }

  /** What one handler contributes for an event: its conditions and body, or `None` when one of its type checks fails. */
  type Outcome = Option<(seq<ConditionKey>, Fragment)>

  /** The conditions and body `h` contributes for `event`; `None` when one of its type checks fails. */
  function Evaluate(h: EventHandler, event: Expr): (r: Outcome)
    ensures r.Some? <==> Conditions(h.matcher(event).expectations).Some?
    ensures r.Some? ==> r.value == (Conditions(h.matcher(event).expectations).value, h.handler(h.matcher(event).wrapped))
  {
    var m := h.matcher(event);
    match Conditions(m.expectations)
    case None => None
    case Some(conds) => Some((conds, h.handler(m.wrapped)))
  }

  /** What each handler contributes for `event`, in registration order. */
  function Outcomes(handlers: seq<EventHandler>, event: Expr): (r: seq<Outcome>)
    ensures |r| == |handlers|
  {
    seq(|handlers|, i requires 0 <= i < |handlers| => Evaluate(handlers[i], event))
  }

  lemma OutcomeAt(handlers: seq<EventHandler>, event: Expr, i: nat)
    requires i < |handlers|
    ensures Outcomes(handlers, event)[i] == Evaluate(handlers[i], event)
  {
  }

  lemma EveryOutcome(handlers: seq<EventHandler>, event: Expr)
    ensures forall i :: 0 <= i < |handlers| ==> Outcomes(handlers, event)[i] == Evaluate(handlers[i], event)
  {
  }

  /** The groups the outcomes, taken in order, build; `None` once one of them is missing. */
  function Grouped(os: seq<Outcome>): Option<seq<Group>>
  {
    if |os| == 0 then Some([])
    else
      match Grouped(os[..|os| - 1])
      case None => None
      case Some(groups) =>
        match os[|os| - 1]
        case None => None
        case Some(ev) => Some(PutGroup(groups, ev.0, ev.1))
  }

  /** The groups the handlers, taken in order, build for `event`; `None` when one of them fails. */
  function Evaluated(handlers: seq<EventHandler>, event: Expr): Option<seq<Group>>
  {
    Grouped(Outcomes(handlers, event))
  }

  /** A missing outcome makes the grouping fail. */
  lemma {:induction false} GroupedFailsAt(os: seq<Outcome>, i: nat)
    requires i < |os| && os[i].None?
    ensures Grouped(os).None?
  {
    var init := os[..|os| - 1];
    if i < |init| && Grouped(init).Some? {
      assert init[i] == os[i];
      GroupedFailsAt(init, i);
    }
  }

  /** With every outcome present the grouping succeeds. */
  lemma {:induction false} GroupedSucceeds(os: seq<Outcome>)
    requires forall i :: 0 <= i < |os| ==> os[i].Some?
    ensures Grouped(os).Some?
  {
    if |os| > 0 {
      var init := os[..|os| - 1];
      assert forall i :: 0 <= i < |init| ==> init[i] == os[i];
      GroupedSucceeds(init);
    }
  }

  lemma GroupedFailsExactly(os: seq<Outcome>)
    ensures Grouped(os).None? <==> exists i :: 0 <= i < |os| && os[i].None?
  {
    if exists i :: 0 <= i < |os| && os[i].None? {
      var i :| 0 <= i < |os| && os[i].None?;
      GroupedFailsAt(os, i);
    } else {
      GroupedSucceeds(os);
    }
  }

  /** Grouping fails exactly when some handler fails. */
  lemma EvaluatedFailsExactly(handlers: seq<EventHandler>, event: Expr)
    ensures Evaluated(handlers, event).None? <==> exists i :: 0 <= i < |handlers| && Evaluate(handlers[i], event).None?
  {
    var os := Outcomes(handlers, event);
    GroupedFailsExactly(os);
    EveryOutcome(handlers, event);
    if Evaluated(handlers, event).None? {
      var i :| 0 <= i < |os| && os[i].None?;
      assert Evaluate(handlers[i], event).None?;
    }
  }

  /** One failing handler makes the whole grouping fail. */
  lemma FailingHandler(handlers: seq<EventHandler>, i: nat, event: Expr)
    requires i < |handlers| && Evaluate(handlers[i], event).None?
    ensures UpdateStatement(handlers, event).None?
  {
    var os := Outcomes(handlers, event);
    GroupedFailsExactly(os);
    OutcomeAt(handlers, event, i);
  }

  /** The last outcome's group is put after those of the others. */
  lemma GroupedStep(os: seq<Outcome>)
    requires |os| > 0 && Grouped(os).Some?
    ensures Grouped(os[..|os| - 1]).Some? && os[|os| - 1].Some?
    ensures Grouped(os).value == PutGroup(Grouped(os[..|os| - 1]).value, os[|os| - 1].value.0, os[|os| - 1].value.1)
  {
  }

  /** The condition set of each outcome, in order. */
  function OutcomeKeys(os: seq<Outcome>): seq<set<string>>
    requires forall i :: 0 <= i < |os| ==> os[i].Some?
  {
    if |os| == 0 then []
    else OutcomeKeys(os[..|os| - 1]) + [Keys(os[|os| - 1].value.0)]
  }

  /** The bodies of the outcomes whose condition set is `key`, in order. */
  function OutcomeBodies(os: seq<Outcome>, key: set<string>): seq<Fragment>
    requires forall i :: 0 <= i < |os| ==> os[i].Some?
  {
    if |os| == 0 then []
    else
      var ev := os[|os| - 1].value;
      OutcomeBodies(os[..|os| - 1], key) + (if Keys(ev.0) == key then [ev.1] else [])
  }

  lemma {:induction false} GroupKeysFollowTheOutcomes(os: seq<Outcome>)
    requires Grouped(os).Some?
    ensures forall i :: 0 <= i < |os| ==> os[i].Some?
    ensures GroupKeys(Grouped(os).value) == Unique(OutcomeKeys(os))
  {
    GroupedFailsExactly(os);
    if |os| > 0 {
      var init := os[..|os| - 1];
      GroupedStep(os);
      PutGroupKeys(Grouped(init).value, os[|os| - 1].value.0, os[|os| - 1].value.1);
      GroupKeysFollowTheOutcomes(init);
      var ok := OutcomeKeys(os);
      assert ok[..|ok| - 1] == OutcomeKeys(init);
    }
  }

  lemma {:induction false} FragmentsFollowTheOutcomes(os: seq<Outcome>, key: set<string>)
    requires Grouped(os).Some?
    ensures forall i :: 0 <= i < |os| ==> os[i].Some?
    ensures FragmentsOf(Grouped(os).value, key) == Unique(OutcomeBodies(os, key))
  {
    GroupedFailsExactly(os);
    if |os| > 0 {
      var init := os[..|os| - 1];
      GroupedStep(os);
      PutGroupFragments(Grouped(init).value, os[|os| - 1].value.0, os[|os| - 1].value.1, key);
      FragmentsFollowTheOutcomes(init, key);
      var ob := OutcomeBodies(os, key);
      if Keys(os[|os| - 1].value.0) == key {
        assert ob[..|ob| - 1] == OutcomeBodies(init, key);
      } else {
        assert ob == OutcomeBodies(init, key);
      }
    }
  }

  /** The condition set of each handler, in registration order. */
  function HandlerKeys(handlers: seq<EventHandler>, event: Expr): seq<set<string>>
    requires forall i :: 0 <= i < |handlers| ==> Evaluate(handlers[i], event).Some?
  {
    EveryOutcome(handlers, event);
    OutcomeKeys(Outcomes(handlers, event))
  }

  /** The bodies of the handlers whose condition set is `key`, in registration order. */
  function HandlerBodies(handlers: seq<EventHandler>, event: Expr, key: set<string>): seq<Fragment>
    requires forall i :: 0 <= i < |handlers| ==> Evaluate(handlers[i], event).Some?
  {
    EveryOutcome(handlers, event);
    OutcomeBodies(Outcomes(handlers, event), key)
  }

  /**
   * One group per distinct condition set, in order of first appearance, and each group holds
   * the bodies of exactly the handlers with that set, in registration order (a repeated body
   * counted once).
   */
  lemma GroupsFollowTheHandlers(handlers: seq<EventHandler>, event: Expr, key: set<string>)
    requires Evaluated(handlers, event).Some?
    ensures forall i :: 0 <= i < |handlers| ==> Evaluate(handlers[i], event).Some?
    ensures GroupKeys(Evaluated(handlers, event).value) == Unique(HandlerKeys(handlers, event))
    ensures FragmentsOf(Evaluated(handlers, event).value, key) == Unique(HandlerBodies(handlers, event, key))
  {
    var os := Outcomes(handlers, event);
    GroupKeysFollowTheOutcomes(os);
    FragmentsFollowTheOutcomes(os, key);
    EveryOutcome(handlers, event);
  }

  // ---------------------------------------------------------------------------------------
  // The if chain
  // ---------------------------------------------------------------------------------------

  /** The expressions of the conditions, in order. */
  function Exprs(conds: seq<ConditionKey>): (r: seq<Expr>)
    ensures |r| == |conds| && forall i :: 0 <= i < |conds| ==> r[i] == conds[i].expr
  {
    if |conds| == 0 then [] else [conds[0].expr] + Exprs(conds[1..])
  }

  /** The conjunction of the conditions, left to right; `true` when there are none. */
  function AndAll(conds: seq<Expr>): Expr
  {
    if |conds| == 0 then BooleanLiteral(true)
    else if |conds| == 1 then conds[0]
    else And(AndAll(conds[..|conds| - 1]), conds[|conds| - 1])
  }

  /** A conjunction of two conditions prints them side by side, each bracketed when looser than `&&`. */
  lemma AndPrints(l: Expr, r: Expr, b: Bindings)
    ensures FormatAt(And(l, r), b, Conjunction) == FormatAt(l, b, Conjunction) + " && " + FormatAt(r, b, Conjunction)
  {
    JavaScriptFacts.BracketsExactlyWhenLooser(And(l, r), b, Conjunction);
  }

  /** Each condition's text where it stands as an operand of `&&`. */
  function ConjunctTexts(conds: seq<Expr>, b: Bindings): (r: seq<string>)
    ensures |r| == |conds|
    ensures forall i :: 0 <= i < |conds| ==> r[i] == FormatAt(conds[i], b, Conjunction)
  {
    if |conds| == 0 then []
    else
      var init := conds[..|conds| - 1];
      assert forall i :: 0 <= i < |init| ==> init[i] == conds[i];
      ConjunctTexts(init, b) + [FormatAt(conds[|conds| - 1], b, Conjunction)]
  }

  /** A group's condition prints as its conditions, each bracketed when looser than `&&`, joined by " && ". */
  lemma {:induction false} AndAllPrints(conds: seq<Expr>, b: Bindings)
    requires |conds| > 0
    ensures FormatAt(AndAll(conds), b, Conjunction) == Join(ConjunctTexts(conds, b), " && ")
  {
    if |conds| > 1 {
      var init := conds[..|conds| - 1];
      var last := conds[|conds| - 1];
      AndAllPrints(init, b);
      AndPrints(AndAll(init), last, b);
      assert ConjunctTexts(conds, b) == ConjunctTexts(init, b) + [FormatAt(last, b, Conjunction)];
      JoinSnoc(ConjunctTexts(init, b), FormatAt(last, b, Conjunction), " && ");
    }
  }

  /** The chain with one `if` / `else if` branch per group, in order. */
  function Chain(groups: seq<Group>): (r: Stmt)
    ensures r.EmptyIfChain? || IsIfBlock(r)
    ensures |groups| == 0 <==> r.EmptyIfChain?
  {
    if |groups| == 0 then EmptyIfChain
    else
      var last := groups[|groups| - 1];
      ElseIfOf(Chain(groups[..|groups| - 1]), AndAll(Exprs(last.conditions)), [Statement(SeqOf(last.fragments))])
  }

  /** The branches of an `if` / `else if` chain, first to last: each condition with its body. */
  function Branches(s: Stmt): seq<(Expr, Stmt)>
  {
    match s
    case If(c, body) => [(c, body)]
    case ElseIf(previous, c, body) => Branches(previous) + [(c, body)]
    case _ => []
  }

  /** `else if` adds one branch after those of the chain. */
  lemma BranchesOfElseIf(chain: Stmt, condition: Expr, body: seq<Fragment>)
    requires chain.EmptyIfChain? || IsIfBlock(chain)
    ensures Branches(ElseIfOf(chain, condition, body)) == Branches(chain) + [(condition, SeqOf(body))]
  {
  }

  /** The branch of a group: its conjunction guarding its bodies. */
  function GroupBranch(g: Group): (Expr, Stmt)
  {
    (AndAll(Exprs(g.conditions)), SeqOf(g.fragments))
  }

  /** The branches of the groups, in order. */
  function GroupBranches(groups: seq<Group>): (r: seq<(Expr, Stmt)>)
    ensures |r| == |groups| && forall i :: 0 <= i < |groups| ==> r[i] == GroupBranch(groups[i])
  {
    if |groups| == 0 then []
    else
      var init := groups[..|groups| - 1];
      assert forall i :: 0 <= i < |init| ==> init[i] == groups[i];
      GroupBranches(init) + [GroupBranch(groups[|groups| - 1])]
  }

  /** The chain has one branch per group, in order: the group's conjunction guarding its bodies. */
  lemma {:induction false} ChainBranches(groups: seq<Group>)
    ensures Branches(Chain(groups)) == GroupBranches(groups)
  {
    if |groups| > 0 {
      var init := groups[..|groups| - 1];
      ChainBranches(init);
      var last := groups[|groups| - 1];
      assert SeqOf([Statement(SeqOf(last.fragments))]) == SeqOf(last.fragments);
      BranchesOfElseIf(Chain(init), AndAll(Exprs(last.conditions)), [Statement(SeqOf(last.fragments))]);
    }
  }

  /** The statement applying one update, or `None` when a type check fails. */
  function UpdateStatement(handlers: seq<EventHandler>, event: Expr): Option<Stmt>
  {
    match Evaluated(handlers, event)
    case None => None
    case Some(groups) => Some(Chain(groups))
  }

  /** When the condition sets of the groups are distinct, looking a group's set up finds that group. */
  lemma {:induction false} FragmentsOfOwnKey(groups: seq<Group>, i: nat)
    requires i < |groups|
    requires forall j, k :: 0 <= j < k < |groups| ==> GroupKeys(groups)[j] != GroupKeys(groups)[k]
    ensures FragmentsOf(groups, Keys(groups[i].conditions)) == groups[i].fragments
  {
    if i > 0 {
      assert Keys(groups[0].conditions) != Keys(groups[i].conditions) by {
        assert GroupKeys(groups)[0] != GroupKeys(groups)[i];
      }
      var rest := groups[1..];
      assert GroupKeys(rest) == GroupKeys(groups)[1..];
      FragmentsOfOwnKey(rest, i - 1);
    }
  }

  /**
   * Applying an update is one `if` / `else if` chain with a branch per distinct condition set,
   * in order of first registration: each branch is guarded by the conjunction of its
   * conditions and runs the bodies of the handlers with that set, in registration order.
   */
  lemma UpdateBranches(handlers: seq<EventHandler>, event: Expr)
    requires Evaluated(handlers, event).Some?
    ensures UpdateStatement(handlers, event).Some?
    ensures forall i :: 0 <= i < |handlers| ==> Evaluate(handlers[i], event).Some?
    ensures var groups := Evaluated(handlers, event).value;
            var branches := Branches(UpdateStatement(handlers, event).value);
            var keys := Unique(HandlerKeys(handlers, event));
            |branches| == |groups| == |keys|
            && forall i :: 0 <= i < |groups| ==>
                 Keys(groups[i].conditions) == keys[i]
                 && branches[i] == (AndAll(Exprs(groups[i].conditions)), SeqOf(Unique(HandlerBodies(handlers, event, keys[i]))))
  {
    var groups := Evaluated(handlers, event).value;
    GroupsFollowTheHandlers(handlers, event, {});
    var keys := Unique(HandlerKeys(handlers, event));
    assert GroupKeys(groups) == keys;
    ChainBranches(groups);
    var branches := GroupBranches(groups);
    forall i | 0 <= i < |groups|
      ensures Keys(groups[i].conditions) == keys[i]
      ensures branches[i] == (AndAll(Exprs(groups[i].conditions)), SeqOf(Unique(HandlerBodies(handlers, event, keys[i]))))
    {
      assert Keys(groups[i].conditions) == GroupKeys(groups)[i];
      GroupsFollowTheHandlers(handlers, event, keys[i]);
      FragmentsOfOwnKey(groups, i);
      assert branches[i] == GroupBranch(groups[i]);
    }
  }

  // ---------------------------------------------------------------------------------------
  // The handler
  // ---------------------------------------------------------------------------------------

  /** The name of the global holding the latest stamp received from the server. */
  const StampName := "stamp"

  /** Sets the stamp global to the value the server sent with its greeting. */
  function Init(stampValue: Expr): Stmt
  {
    GlobalSet(StampName, stampValue)
  }

  /** Setting the stamp prints as one assignment statement. */
  lemma InitPrints(stampValue: Expr, b: Bindings)
    ensures FormatStatement(Init(stampValue), b) == Some("stamp = " + FormatAt(stampValue, b, Assignment) + ";")
  {
    JavaScriptFacts.BracketsExactlyWhenLooser(Code(StampName), b, Atom);
    assert FormatAt(Code(StampName), b, Atom) == "stamp";
    assert Format(Binary(Assignment, Code(StampName), Atom, " = ", stampValue, Assignment), b)
           == "stamp" + " = " + FormatAt(stampValue, b, Assignment);
    assert "stamp" + " = " == "stamp = ";
  }

  class ClientStateHandler {
    var handlers: seq<EventHandler>

    constructor()
      ensures handlers == []
    {
      handlers := [];
    }

    /** Registers a handler after the others; returns the handler itself. */
    method AddHandler(matcher: Expr -> Match, handler: Expr -> Fragment) returns (self: ClientStateHandler)
      modifies this
      ensures handlers == old(handlers) + [EventHandler(matcher, handler)] && self == this
    {
      handlers := handlers + [EventHandler(matcher, handler)];
      self := this;
    }

    /** The conditions of one handler, gathered as its matcher states them; `None` when a type check fails. */
    static method CollectConditions(xs: seq<Expectation>) returns (r: Option<seq<ConditionKey>>)
      ensures r == Conditions(xs)
    {
      ghost var cs := ConditionsOf(xs);
      var conds: seq<ConditionKey> := [];
      var i := 0;
      while i < |xs|
        invariant 0 <= i <= |xs|
        invariant Gathered(cs[..i]) == Some(conds)
      {
        assert cs[..i + 1][..i] == cs[..i];
        EveryCondition(xs);
        match ConditionOf(xs[i])
        case None =>
          GatheredFailsAt(cs, i);
          return None;
        case Some(c) =>
          conds := AddCondition(conds, KeyOf(c));
        i := i + 1;
      }
      assert cs[..i] == cs;
      r := Some(conds);
    }

    /** Adds the body of `h` for `event` to the group of its condition set. */
    static method AddHandlerToMultimap(h: EventHandler, event: Expr, groups: seq<Group>) returns (r: Option<seq<Group>>)
      ensures r.Some? <==> Evaluate(h, event).Some?
      ensures r.Some? ==> r.value == PutGroup(groups, Evaluate(h, event).value.0, Evaluate(h, event).value.1)
    {
      var m := h.matcher(event);
      var conds := CollectConditions(m.expectations);
      if conds.None? {
        return None;
      }
      r := Some(PutGroup(groups, conds.value, h.handler(m.wrapped)));
    }

    /** The `if` / `else if` chain applying one update `event`; `None` when a type check fails. */
    method ApplyUpdate(event: Expr) returns (r: Option<Stmt>)
      ensures r == UpdateStatement(handlers, event)
    {
      var hs := handlers;
      ghost var os := Outcomes(hs, event);
      var groups: seq<Group> := [];
      var i := 0;
      while i < |hs|
        invariant 0 <= i <= |hs|
        invariant Grouped(os[..i]) == Some(groups)
      {
        var next := AddHandlerToMultimap(hs[i], event, groups);
        assert os[..i + 1][..i] == os[..i];
        OutcomeAt(hs, event, i);
        if next.None? {
          FailingHandler(hs, i, event);
          return None;
        }
        groups := next.value;
        i := i + 1;
      }
      assert os[..i] == os;
      r := Some(Chain(groups));
    }

    /**
     * The code handling a message from the server: bind the stamped list (symbol `next`), set
     * the stamp from it, then apply each of its updates (symbol `next + 1`) in turn.
     */
    method HandleEvent(message: Expr, next: SymbolId) returns (r: Option<Stmt>)
      ensures r.Some? <==> UpdateStatement(handlers, Symbol(next + 1)).Some?
      ensures r.Some? ==> r.value.Let? && r.value.value == message && r.value.symbol == next
      ensures r.Some? ==>
                r.value.letBody == Sequence([Statement(Init(Dot(Symbol(next), "stamp"))),
                                             Statement(ForOf(Dot(Symbol(next), "updates"), next + 1,
                                                             Statement(UpdateStatement(handlers, Symbol(next + 1)).value)))])
    {
      var list := Symbol(next);
      var update := ApplyUpdate(Symbol(next + 1));
      if update.None? {
        return None;
      }
      IdentifierStamp();
      r := Some(Let(message, next,
                    SeqOf([Statement(GlobalSet(StampName, DotOf(list, "stamp"))),
                           Statement(ForOf(DotOf(list, "updates"), next + 1, Statement(update.value)))])));
    }

    /** Declares the stamp global, initialised to 0, in the page script. */
    method AddTo<T>(page: Pages.AbstractPage<T>) returns (self: ClientStateHandler)
      modifies page.script
      ensures self == this
      ensures !old(page.script.exposed) ==> page.script.members == old(page.script.members) + [Scripts.Member("stamp = 0;\n")]
      ensures old(page.script.exposed) ==> page.script.members == old(page.script.members)
    {
      var _ := page.AddToScript([GlobalDeclaration(StampName, NumberLiteral(0))]);
      StampDeclaration();
      self := this;
    }
  }

  lemma IdentifierStamp()
    ensures IsIdentifier("stamp") && IsIdentifier("updates")
  {
  }

  lemma StampDeclaration()
    ensures GlobalDeclaration(StampName, NumberLiteral(0)) == "stamp = 0;\n"
  {
  }
}
