/** What dereferencing costs: how many values and references a traversal has to look at, and how deep. */
module DerefCost {
  import opened Base
  import opened Json
  import opened Limits
  import opened OpenApi
  import opened OpenApiLaws

  datatype Cost = Cost(nodes: nat, refs: nat)

  function Plus(a: Option<Cost>, b: Option<Cost>): Option<Cost> {
    if a.None? || b.None? then None else Some(Cost(a.value.nodes + b.value.nodes, a.value.refs + b.value.refs))
  }

  const NODE: Option<Cost> := Some(Cost(1, 0))
  const REFERENCE: Option<Cost> := Some(Cost(1, 1))

  /**
   * Every value counts once, and so does every reference. A reference also costs its target, and if there
   * are members beside it, the target's meaning combined with them. None when `room` levels are not enough
   * or something has no meaning.
   */
  ghost function CostOf(env: Env, v: Json, uri: string, room: nat): Option<Cost>
    decreases room, 0, 0
  {
    if room == 0 then None
    else
      match v
      case Arr(items) => Plus(NODE, CostItems(env, items, uri, room - 1))
      case Obj(fields) =>
        if RefOf(fields).None? then Plus(NODE, CostFields(env, fields, uri, room - 1))
        else
          var t := TargetOf(env, RefOf(fields).value, uri);
          var target := Resolve(env, t);
          if target.None? then None
          else
            var first := Plus(REFERENCE, CostOf(env, target.value, t.uri, room - 1));
            if Siblings(fields) == [] then first
            else if resolved :| Means(env, target.value, t.uri, resolved) then
              Plus(first, CostOf(env, Combine(resolved, Siblings(fields)), uri, room - 1))
            else None
      case _ => NODE
  }

  ghost function CostItems(env: Env, items: seq<Json>, uri: string, room: nat): Option<Cost>
    decreases room, 1, |items|
  {
    if items == [] then Some(Cost(0, 0))
    else Plus(CostItems(env, items[..|items| - 1], uri, room), CostOf(env, items[|items| - 1], uri, room))
  }

  ghost function CostFields(env: Env, fields: seq<Field>, uri: string, room: nat): Option<Cost>
    decreases room, 1, |fields|
  {
    if fields == [] then Some(Cost(0, 0))
    else Plus(CostFields(env, fields[..|fields| - 1], uri, room), CostOf(env, fields[|fields| - 1].value, uri, room))
  }

  /** The two counters of a traversal. */
  datatype Meter = Meter(nodes: nat, refs: nat)

  predicate Exceeds(cost: Option<Cost>, before: Meter) {
    cost.None? || before.nodes + cost.value.nodes > MAX_NODES || before.refs + cost.value.refs > MAX_REFS
  }

  /** Done means that exactly the cost was counted; giving up over a limit, that the cost does not fit. */
  predicate Metered(cost: Option<Cost>, before: Meter, after: Meter, done: bool, over: bool) {
    && (done ==> cost.Some? && after == Meter(before.nodes + cost.value.nodes, before.refs + cost.value.refs))
    && (over ==> Exceeds(cost, before))
  }

  /** One cost after another. */
  lemma MeteredTwice(a: Option<Cost>, b: Option<Cost>, before: Meter, between: Meter, after: Meter, done: bool, over: bool)
    requires Metered(a, before, between, true, false) && Metered(b, between, after, done, over)
    ensures Metered(Plus(a, b), before, after, done, over)
  {}

  lemma MeteredReference(target: Option<Cost>, before: Meter, after: Meter)
    requires Metered(target, Meter(before.nodes + 1, before.refs + 1), after, true, false)
    ensures Metered(Plus(REFERENCE, target), before, after, true, false)
  {}

  lemma MeteredOk(cost: Option<Cost>, before: Meter, after: Meter, over: bool)
    requires Metered(cost, before, after, true, false) && !over
    ensures Metered(cost, before, after, true, over)
  {}

  /** Giving up early. */
  lemma MeteredEarly(a: Option<Cost>, b: Option<Cost>, before: Meter, after: Meter)
    requires Metered(a, before, after, false, true)
    ensures Metered(Plus(a, b), before, after, false, true)
  {}

  lemma {:induction false} MeteredItems(env: Env, items: seq<Json>, n: nat, uri: string, room: nat, before: Meter, after: Meter)
    requires n <= |items| && Metered(CostItems(env, items[..n], uri, room), before, after, false, true)
    ensures Metered(CostItems(env, items, uri, room), before, after, false, true)
    decreases |items|
  {
    if n == |items| {
      assert items[..n] == items;
    } else {
      var m := |items| - 1;
      assert items[..m][..n] == items[..n];
      MeteredItems(env, items[..m], n, uri, room, before, after);
      MeteredEarly(CostItems(env, items[..m], uri, room), CostOf(env, items[m], uri, room), before, after);
    }
  }

  lemma {:induction false} MeteredFields(env: Env, fields: seq<Field>, n: nat, uri: string, room: nat, before: Meter, after: Meter)
    requires n <= |fields| && Metered(CostFields(env, fields[..n], uri, room), before, after, false, true)
    ensures Metered(CostFields(env, fields, uri, room), before, after, false, true)
    decreases |fields|
  {
    if n == |fields| {
      assert fields[..n] == fields;
    } else {
      var m := |fields| - 1;
      assert fields[..m][..n] == fields[..n];
      MeteredFields(env, fields[..m], n, uri, room, before, after);
      MeteredEarly(CostFields(env, fields[..m], uri, room), CostOf(env, fields[m].value, uri, room), before, after);
    }
  }

  lemma MeteredItem(
      env: Env, items: seq<Json>, n: nat, uri: string, room: nat, before: Meter, between: Meter, after: Meter, done: bool, over: bool)
    requires n < |items| && Metered(CostItems(env, items[..n], uri, room), before, between, true, false)
    requires Metered(CostOf(env, items[n], uri, room), between, after, done, over)
    ensures Metered(CostItems(env, items[..n + 1], uri, room), before, after, done, over)
    ensures over ==> Metered(CostItems(env, items, uri, room), before, after, false, true)
  {
    var front := items[..n + 1];
    assert front[..n] == items[..n] && front[n] == items[n];
    MeteredTwice(CostItems(env, items[..n], uri, room), CostOf(env, items[n], uri, room), before, between, after, done, over);
    if over {
      MeteredItems(env, items, n + 1, uri, room, before, after);
    }
  }

  lemma MeteredField(
      env: Env, fields: seq<Field>, n: nat, uri: string, room: nat, before: Meter, between: Meter, after: Meter, done: bool, over: bool)
    requires n < |fields| && Metered(CostFields(env, fields[..n], uri, room), before, between, true, false)
    requires Metered(CostOf(env, fields[n].value, uri, room), between, after, done, over)
    ensures Metered(CostFields(env, fields[..n + 1], uri, room), before, after, done, over)
    ensures over ==> Metered(CostFields(env, fields, uri, room), before, after, false, true)
  {
    var front := fields[..n + 1];
    assert front[..n] == fields[..n] && front[n] == fields[n];
    MeteredTwice(CostFields(env, fields[..n], uri, room), CostOf(env, fields[n].value, uri, room), before, between, after, done, over);
    if over {
      MeteredFields(env, fields, n + 1, uri, room, before, after);
    }
  }

  /** The cost of a reference whose target means `resolved`. */
  lemma ReferenceCost(env: Env, fields: seq<Field>, uri: string, room: nat, t: Target, resolved: Json)
    requires RefOf(fields).Some? && t == TargetOf(env, RefOf(fields).value, uri) && Resolve(env, t).Some?
    requires Means(env, Resolve(env, t).value, t.uri, resolved)
    ensures var first := Plus(REFERENCE, CostOf(env, Resolve(env, t).value, t.uri, room));
            CostOf(env, Obj(fields), uri, room + 1) ==
            if Siblings(fields) == [] then first
            else Plus(first, CostOf(env, Combine(resolved, Siblings(fields)), uri, room))
  {
    hide Means, Combine, Resolve, TargetOf, RefOf, Siblings, Plus;
    forall other | Means(env, Resolve(env, t).value, t.uri, other) ensures other == resolved {
      MeaningUnique(env, Resolve(env, t).value, t.uri, other, resolved);
    }
  }

  /** A reference costs at least itself and its target. */
  lemma ReferenceCostsTarget(env: Env, fields: seq<Field>, uri: string, room: nat, t: Target, before: Meter)
    requires RefOf(fields).Some? && t == TargetOf(env, RefOf(fields).value, uri)
    ensures before.refs + 1 > MAX_REFS ==> Exceeds(CostOf(env, Obj(fields), uri, room + 1), before)
    ensures Resolve(env, t).Some? && Exceeds(Plus(REFERENCE, CostOf(env, Resolve(env, t).value, t.uri, room)), before) ==>
              Exceeds(CostOf(env, Obj(fields), uri, room + 1), before)
  {
    hide Combine, Resolve, TargetOf, RefOf, Siblings;
  }
}
