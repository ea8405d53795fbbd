/** What substitution means: fuel only bounds it, results hold no references, cycles have no value. */
module OpenApiLaws {
  import opened Base
  import opened Json
  import opened OpenApi

  /** Every `$ref` in the value is a string, and members of one object have different names. */
  ghost predicate Clean(v: Json)
    decreases v
  {
    match v
    case Arr(items) => forall i :: 0 <= i < |items| ==> Clean(items[i])
    case Obj(fields) => UniqueKeys(fields) && forall i :: 0 <= i < |fields| ==> CleanField(fields[i])
    case _ => true
  }

  ghost predicate CleanField(f: Field)
    decreases f
  {
    (f.key == REF ==> f.value.Str?) && Clean(f.value)
  }

  /** No member anywhere in the value is called `$ref`; again names do not repeat. */
  ghost predicate RefFree(v: Json)
    decreases v
  {
    match v
    case Arr(items) => forall i :: 0 <= i < |items| ==> RefFree(items[i])
    case Obj(fields) => UniqueKeys(fields) && forall i :: 0 <= i < |fields| ==> RefFreeField(fields[i])
    case _ => true
  }

  ghost predicate RefFreeField(f: Field)
    decreases f
  {
    f.key != REF && RefFree(f.value)
  }

  ghost predicate CleanFields(fields: seq<Field>) { forall i :: 0 <= i < |fields| ==> CleanField(fields[i]) }
  ghost predicate RefFreeFields(fields: seq<Field>) { forall i :: 0 <= i < |fields| ==> RefFreeField(fields[i]) }

  ghost predicate CleanEnv(env: Env) {
    forall uri: string :: Library(env, uri).Some? ==> Clean(Library(env, uri).value)
  }

  /** `r` is the value with every reference, however deeply nested, substituted. */
  ghost predicate Means(env: Env, v: Json, uri: string, r: Json) {
    exists fuel: nat :: Expand(env, v, uri, fuel) == Some(r)
  }

  // ----- fuel -----

  lemma {:induction false} ExpandMonotone(env: Env, v: Json, uri: string, f: nat, g: nat)
    requires f <= g && Expand(env, v, uri, f).Some?
    ensures Expand(env, v, uri, g) == Expand(env, v, uri, f)
    decreases 2 * f, v, 1
  {
    match v
    case Arr(items) => ExpandItemsMonotone(env, items, uri, f, g);
    case Obj(fields) =>
      ExpandFieldsMonotone(env, fields, uri, f, g);
      if RefOf(fields).Some? {
        ExpandTargetMonotone(env, TargetOf(env, RefOf(fields).value, uri), f - 1, g - 1);
      }
    case _ =>
  }

  lemma {:induction false} ExpandTargetMonotone(env: Env, t: Target, f: nat, g: nat)
    requires f <= g && ExpandTarget(env, t, f).Some?
    ensures ExpandTarget(env, t, g) == ExpandTarget(env, t, f)
    decreases 2 * f + 1, Null, 0
  {
    ExpandMonotone(env, Resolve(env, t).value, t.uri, f, g);
  }

  lemma {:induction false} ExpandItemsMonotone(env: Env, items: seq<Json>, uri: string, f: nat, g: nat)
    requires f <= g && ExpandItems(env, items, uri, f).Some?
    ensures ExpandItems(env, items, uri, g) == ExpandItems(env, items, uri, f)
    decreases 2 * f, items, 0
  {
    if items != [] {
      ExpandItemsMonotone(env, items[..|items| - 1], uri, f, g);
      ExpandMonotone(env, items[|items| - 1], uri, f, g);
    }
  }

  lemma {:induction false} ExpandFieldsMonotone(env: Env, fields: seq<Field>, uri: string, f: nat, g: nat)
    requires f <= g && ExpandFields(env, fields, uri, f).Some?
    ensures ExpandFields(env, fields, uri, g) == ExpandFields(env, fields, uri, f)
    decreases 2 * f, fields, 0
  {
    if fields != [] {
      var last := fields[|fields| - 1];
      ExpandFieldsMonotone(env, fields[..|fields| - 1], uri, f, g);
      if !(last.key == REF && last.value.Str?) {
        ExpandMonotone(env, last.value, uri, f, g);
      }
    }
  }

  /** A document means at most one thing. */
  lemma MeaningUnique(env: Env, v: Json, uri: string, a: Json, b: Json)
    requires Means(env, v, uri, a) && Means(env, v, uri, b)
    ensures a == b
  {
    var f: nat :| Expand(env, v, uri, f) == Some(a);
    var g: nat :| Expand(env, v, uri, g) == Some(b);
    if f <= g {
      ExpandMonotone(env, v, uri, f, g);
    } else {
      ExpandMonotone(env, v, uri, g, f);
    }
  }

  // ----- reference-free values -----

  /** Expanding a reference-free value is the identity, with any fuel. */
  lemma {:induction false} ExpandRefFree(env: Env, v: Json, uri: string, fuel: nat)
    requires RefFree(v)
    ensures Expand(env, v, uri, fuel) == Some(v)
    decreases v, 1
  {
    match v
    case Arr(items) => ExpandRefFreeItems(env, items, uri, fuel);
    case Obj(fields) =>
      ExpandRefFreeFields(env, fields, uri, fuel);
      assert !Has(fields, REF);
    case _ =>
  }

  lemma {:induction false} ExpandRefFreeItems(env: Env, items: seq<Json>, uri: string, fuel: nat)
    requires forall i :: 0 <= i < |items| ==> RefFree(items[i])
    ensures ExpandItems(env, items, uri, fuel) == Some(items)
    decreases items, 0
  {
    if items != [] {
      var n := |items| - 1;
      ExpandRefFreeItems(env, items[..n], uri, fuel);
      ExpandRefFree(env, items[n], uri, fuel);
      assert items == items[..n] + [items[n]];
    }
  }

  lemma {:induction false} ExpandRefFreeFields(env: Env, fields: seq<Field>, uri: string, fuel: nat)
    requires RefFreeFields(fields)
    ensures ExpandFields(env, fields, uri, fuel) == Some(fields)
    decreases fields, 0
  {
    if fields != [] {
      var n := |fields| - 1;
      ExpandRefFreeFields(env, fields[..n], uri, fuel);
      assert RefFreeField(fields[n]);
      ExpandRefFree(env, fields[n].value, uri, fuel);
      assert fields == fields[..n] + [fields[n]];
    }
  }

  lemma {:induction false} RefFreeIsClean(v: Json)
    requires RefFree(v)
    ensures Clean(v)
    decreases v
  {
    match v
    case Arr(items) =>
      forall i | 0 <= i < |items| ensures Clean(items[i]) {
        RefFreeIsClean(items[i]);
      }
    case Obj(fields) =>
      forall i | 0 <= i < |fields| ensures CleanField(fields[i]) {
        assert RefFreeField(fields[i]);
        RefFreeIsClean(fields[i].value);
      }
    case _ =>
  }

  // ----- results hold no references -----

  lemma {:induction false} WalkClean(env: Env, v: Json, segments: seq<string>)
    requires Clean(v) && Walk(env, v, segments).Some?
    ensures Clean(Walk(env, v, segments).value)
    decreases |segments|
  {
    if segments != [] {
      var key := Unescape(env.decode(segments[0]).value);
      var child := Get(v.fields, key);
      var i :| 0 <= i < |v.fields| && v.fields[i] == Field(key, child);
      assert CleanField(v.fields[i]);
      WalkClean(env, child, segments[1..]);
    }
  }

  lemma PointerClean(env: Env, root: Json, fragment: string)
    requires Clean(root) && PointerValue(env, root, fragment).Some?
    ensures Clean(PointerValue(env, root, fragment).value)
  {
    if fragment != "" && fragment != "#" {
      WalkClean(env, root, Split(fragment[2..], '/'));
    }
  }

  lemma ResolveClean(env: Env, t: Target)
    requires CleanEnv(env) && Resolve(env, t).Some?
    ensures Clean(Resolve(env, t).value)
  {
    PointerClean(env, Library(env, t.uri).value, t.fragment);
  }

  /** Whatever substitution yields on clean documents has no `$ref` left in it. */
  lemma {:induction false} ExpandLeavesNoRef(env: Env, v: Json, uri: string, fuel: nat)
    requires CleanEnv(env) && Clean(v) && Expand(env, v, uri, fuel).Some?
    ensures RefFree(Expand(env, v, uri, fuel).value)
    decreases 2 * fuel, v, 1
  {
    match v
    case Arr(items) => ExpandItemsLeaveNoRef(env, items, uri, fuel);
    case Obj(fields) =>
      ExpandFieldsLeaveNoRef(env, fields, uri, fuel);
      ExpandFieldsKeys(env, fields, uri, fuel);
      if RefOf(fields).Some? {
        var t := TargetOf(env, RefOf(fields).value, uri);
        ResolveClean(env, t);
        ExpandLeavesNoRef(env, Resolve(env, t).value, t.uri, fuel - 1);
        CombineLeavesNoRef(ExpandTarget(env, t, fuel - 1).value, ExpandFields(env, fields, uri, fuel).value);
      }
    case _ =>
  }

  lemma {:induction false} ExpandItemsLeaveNoRef(env: Env, items: seq<Json>, uri: string, fuel: nat)
    requires CleanEnv(env) && (forall i :: 0 <= i < |items| ==> Clean(items[i])) && ExpandItems(env, items, uri, fuel).Some?
    ensures var xs := ExpandItems(env, items, uri, fuel).value; forall i :: 0 <= i < |xs| ==> RefFree(xs[i])
    decreases 2 * fuel, items, 0
  {
    if items != [] {
      ExpandItemsLeaveNoRef(env, items[..|items| - 1], uri, fuel);
      ExpandLeavesNoRef(env, items[|items| - 1], uri, fuel);
    }
  }

  lemma {:induction false} ExpandFieldsLeaveNoRef(env: Env, fields: seq<Field>, uri: string, fuel: nat)
    requires CleanEnv(env) && CleanFields(fields) && ExpandFields(env, fields, uri, fuel).Some?
    ensures RefFreeFields(ExpandFields(env, fields, uri, fuel).value)
    decreases 2 * fuel, fields, 0
  {
    if fields != [] {
      var last := fields[|fields| - 1];
      assert CleanField(last);
      ExpandFieldsLeaveNoRef(env, fields[..|fields| - 1], uri, fuel);
      if last.key != REF {
        ExpandLeavesNoRef(env, last.value, uri, fuel);
        assert RefFreeField(Field(last.key, Expand(env, last.value, uri, fuel).value));
      }
    }
  }

  lemma CombineLeavesNoRef(resolved: Json, siblings: seq<Field>)
    requires RefFree(resolved) && RefFreeFields(siblings) && UniqueKeys(siblings)
    ensures RefFree(Combine(resolved, siblings))
  {
    if siblings != [] && resolved.Obj? {
      MergeUnique(resolved.fields, siblings);
      MergeRefFree(resolved.fields, siblings);
    }
  }

  lemma MergeRefFree(a: seq<Field>, b: seq<Field>)
    requires RefFreeFields(a) && RefFreeFields(b)
    ensures RefFreeFields(Merge(a, b))
  {
    OverrideKeeps(a, b, RefFreeField);
    NewFieldsKeeps(a, b, RefFreeField);
  }

  /** Whatever holds of all members of both sides and only looks at one member holds after merging. */
  lemma {:induction false} OverrideKeeps(a: seq<Field>, b: seq<Field>, p: Field -> bool)
    requires forall i :: 0 <= i < |a| ==> p(a[i])
    requires forall i :: 0 <= i < |b| ==> p(b[i])
    ensures forall i :: 0 <= i < |Override(a, b)| ==> p(Override(a, b)[i])
    decreases |a|
  {
    if a != [] {
      OverrideKeeps(a[..|a| - 1], b, p);
    }
  }

  lemma {:induction false} NewFieldsKeeps(a: seq<Field>, b: seq<Field>, p: Field -> bool)
    requires forall i :: 0 <= i < |b| ==> p(b[i])
    ensures forall i :: 0 <= i < |NewFields(a, b)| ==> p(NewFields(a, b)[i])
    decreases |b|
  {
    if b != [] {
      NewFieldsKeeps(a, b[..|b| - 1], p);
    }
  }

  // ----- names -----

  /** Expansion neither adds nor drops members, other than the reference itself. */
  lemma {:induction false} ExpandFieldsKeys(env: Env, fields: seq<Field>, uri: string, fuel: nat)
    requires ExpandFields(env, fields, uri, fuel).Some? && UniqueKeys(fields)
    ensures UniqueKeys(ExpandFields(env, fields, uri, fuel).value)
    ensures forall f :: f in ExpandFields(env, fields, uri, fuel).value ==> Has(fields, f.key)
    decreases |fields|
  {
    if fields != [] {
      var n := |fields| - 1;
      ExpandFieldsKeys(env, fields[..n], uri, fuel);
      forall f | f in ExpandFields(env, fields[..n], uri, fuel).value
        ensures Has(fields, f.key) && f.key != fields[n].key
      {
        var i :| 0 <= i < n && fields[..n][i].key == f.key;
        assert fields[i].key == f.key;
      }
      assert Has(fields, fields[n].key);
    }
  }

  lemma {:induction false} OverrideAt(a: seq<Field>, b: seq<Field>)
    ensures |Override(a, b)| == |a|
    ensures forall i :: 0 <= i < |a| ==>
      Override(a, b)[i] == if Has(b, a[i].key) then Field(a[i].key, Get(b, a[i].key)) else a[i]
    decreases |a|
  {
    if a != [] {
      OverrideAt(a[..|a| - 1], b);
    }
  }

  lemma {:induction false} NewFieldsAre(a: seq<Field>, b: seq<Field>)
    ensures forall f :: f in NewFields(a, b) <==> f in b && !Has(a, f.key)
    ensures UniqueKeys(b) ==> UniqueKeys(NewFields(a, b))
    decreases |b|
  {
    if b != [] {
      var n := |b| - 1;
      NewFieldsAre(a, b[..n]);
      assert b == b[..n] + [b[n]];
      UniqueSnoc(b[..n], b[n]);
      UniqueSnoc(NewFields(a, b[..n]), b[n]);
      hide UniqueKeys, Has;
    }
  }

  lemma MergeUnique(a: seq<Field>, b: seq<Field>)
    requires UniqueKeys(a) && UniqueKeys(b)
    ensures UniqueKeys(Merge(a, b))
  {
    OverrideAt(a, b);
    NewFieldsAre(a, b);
    var o, n := Override(a, b), NewFields(a, b);
    forall i, j | 0 <= i < |o| && 0 <= j < |n| ensures o[i].key != n[j].key {
      assert n[j] in n;
      assert o[i].key == a[i].key;
    }
  }

  /** Merging loses no member of the overriding side. */
  lemma MergeHolds(a: seq<Field>, b: seq<Field>, j: nat)
    requires UniqueKeys(b) && j < |b|
    ensures b[j] in Merge(a, b)
  {
    OverrideAt(a, b);
    NewFieldsAre(a, b);
    GetUnique(b, j);
    if Has(a, b[j].key) {
      var i :| 0 <= i < |a| && a[i].key == b[j].key;
      assert Override(a, b)[i] == b[j];
    }
  }

  lemma UniqueSnoc(front: seq<Field>, last: Field)
    ensures UniqueKeys(front + [last]) <==> UniqueKeys(front) && forall f :: f in front ==> f.key != last.key
  {
    var all := front + [last];
    assert all[|front|] == last && all[..|front|] == front;
    if UniqueKeys(all) {
      forall i, j | 0 <= i < j < |front| ensures front[i].key != front[j].key {
        assert all[i].key != all[j].key;
      }
      forall f | f in front ensures f.key != last.key {
        var i :| 0 <= i < |front| && front[i] == f;
        assert all[i].key != all[|front|].key;
      }
    }
  }

  lemma {:induction false} SiblingsAre(fields: seq<Field>)
    ensures forall f :: f in Siblings(fields) <==> f in fields && f.key != REF
    ensures UniqueKeys(fields) ==> UniqueKeys(Siblings(fields))
    decreases |fields|
  {
    if fields != [] {
      var n := |fields| - 1;
      SiblingsAre(fields[..n]);
      assert fields == fields[..n] + [fields[n]];
      UniqueSnoc(fields[..n], fields[n]);
      UniqueSnoc(Siblings(fields[..n]), fields[n]);
      hide UniqueKeys;
    }
  }

  // ----- members beside a reference -----

  /** One more member. */
  lemma ExpandFieldsSnoc(env: Env, front: seq<Field>, last: Field, uri: string, fuel: nat)
    ensures ExpandFields(env, front + [last], uri, fuel) ==
            if last.key == REF && last.value.Str? then ExpandFields(env, front, uri, fuel)
            else if ExpandFields(env, front, uri, fuel).None? || Expand(env, last.value, uri, fuel).None? then None
            else Some(ExpandFields(env, front, uri, fuel).value + [Field(last.key, Expand(env, last.value, uri, fuel).value)])
  {
    var all := front + [last];
    assert all[..|all| - 1] == front && all[|all| - 1] == last;
  }

  lemma {:induction false} SiblingsExpand(env: Env, fields: seq<Field>, uri: string, fuel: nat)
    requires CleanFields(fields)
    ensures ExpandFields(env, Siblings(fields), uri, fuel) == ExpandFields(env, fields, uri, fuel)
    decreases |fields|
  {
    if fields != [] {
      var n := |fields| - 1;
      SiblingsExpand(env, fields[..n], uri, fuel);
      assert CleanField(fields[n]);
      if fields[n].key != REF {
        ExpandFieldsSnoc(env, Siblings(fields[..n]), fields[n], uri, fuel);
      }
    }
  }

  /** Members expand one by one. */
  lemma {:induction false} ExpandFieldsSome(env: Env, fields: seq<Field>, uri: string, fuel: nat)
    requires !Has(fields, REF)
    ensures ExpandFields(env, fields, uri, fuel).Some? <==> forall f :: f in fields ==> Expand(env, f.value, uri, fuel).Some?
    decreases |fields|
  {
    if fields != [] {
      var n := |fields| - 1;
      var front := fields[..n];
      assert !Has(front, REF) && fields[n].key != REF;
      assert fields == front + [fields[n]];
      ExpandFieldsSome(env, front, uri, fuel);
    }
  }

  lemma {:induction false} ExpandFieldsAppend(env: Env, a: seq<Field>, b: seq<Field>, uri: string, fuel: nat)
    requires ExpandFields(env, a, uri, fuel).Some? && ExpandFields(env, b, uri, fuel).Some?
    ensures ExpandFields(env, a + b, uri, fuel) ==
            Some(ExpandFields(env, a, uri, fuel).value + ExpandFields(env, b, uri, fuel).value)
    decreases |b|
  {
    if b == [] {
      assert a + b == a;
      var xs := ExpandFields(env, a, uri, fuel).value;
      assert xs + [] == xs;
    } else {
      var n := |b| - 1;
      assert a + b == (a + b[..n]) + [b[n]] && b == b[..n] + [b[n]];
      ExpandFieldsAppend(env, a, b[..n], uri, fuel);
      ExpandFieldsSnoc(env, a + b[..n], b[n], uri, fuel);
      var xs, ys := ExpandFields(env, a, uri, fuel).value, ExpandFields(env, b[..n], uri, fuel).value;
      var last := Field(b[n].key, if Expand(env, b[n].value, uri, fuel).None? then Null else Expand(env, b[n].value, uri, fuel).value);
      assert (xs + ys) + [last] == xs + (ys + [last]);
    }
  }

  lemma {:induction false} GetExpands(env: Env, b: seq<Field>, uri: string, fuel: nat, key: string)
    requires !Has(b, REF) && UniqueKeys(b) && ExpandFields(env, b, uri, fuel).Some?
    ensures var xs := ExpandFields(env, b, uri, fuel).value;
            Has(xs, key) == Has(b, key) && (Has(b, key) ==> Expand(env, Get(b, key), uri, fuel) == Some(Get(xs, key)))
    decreases |b|
  {
    var xs := ExpandFields(env, b, uri, fuel).value;
    if b != [] {
      var n := |b| - 1;
      var front := b[..n];
      assert b[n].key != REF && !Has(front, REF);
      GetExpands(env, front, uri, fuel, key);
      ExpandFieldsKeys(env, b, uri, fuel);
      var ys := ExpandFields(env, front, uri, fuel).value;
      var last := Field(b[n].key, Expand(env, b[n].value, uri, fuel).value);
      assert xs == ys + [last] && b == front + [b[n]];
      HasSnoc(front, b[n], key);
      HasSnoc(ys, last, key);
    }
  }

  lemma HasSnoc(fields: seq<Field>, last: Field, key: string)
    requires UniqueKeys(fields + [last])
    ensures Has(fields + [last], key) <==> Has(fields, key) || last.key == key
    ensures Has(fields, key) ==> Get(fields + [last], key) == Get(fields, key)
    ensures last.key == key ==> Get(fields + [last], key) == last.value
  {
    var all := fields + [last];
    assert all[|fields|] == last;
    GetUnique(all, |fields|);
    if Has(fields, key) {
      var i :| 0 <= i < |fields| && fields[i] == Field(key, Get(fields, key));
      assert all[i] == fields[i];
      GetUnique(all, i);
    }
    if Has(all, key) && last.key != key {
      var i :| 0 <= i < |all| && all[i].key == key;
      assert fields[i].key == key;
    }
  }

  lemma {:induction false} OverrideExpands(env: Env, a: seq<Field>, b: seq<Field>, uri: string, fuel: nat)
    requires RefFreeFields(a) && !Has(b, REF) && UniqueKeys(b) && ExpandFields(env, b, uri, fuel).Some?
    ensures ExpandFields(env, Override(a, b), uri, fuel) == Some(Override(a, ExpandFields(env, b, uri, fuel).value))
    decreases |a|
  {
    if a != [] {
      var n := |a| - 1;
      OverrideExpands(env, a[..n], b, uri, fuel);
      GetExpands(env, b, uri, fuel, a[n].key);
      assert RefFreeField(a[n]);
      ExpandRefFree(env, a[n].value, uri, fuel);
      var o := Override(a, b);
      assert o[..|o| - 1] == Override(a[..n], b);
    }
  }

  lemma {:induction false} NewFieldsExpand(env: Env, a: seq<Field>, b: seq<Field>, uri: string, fuel: nat)
    requires !Has(b, REF) && ExpandFields(env, b, uri, fuel).Some?
    ensures ExpandFields(env, NewFields(a, b), uri, fuel) == Some(NewFields(a, ExpandFields(env, b, uri, fuel).value))
    decreases |b|
  {
    if b != [] {
      var n := |b| - 1;
      assert !Has(b[..n], REF) && b[n].key != REF;
      NewFieldsExpand(env, a, b[..n], uri, fuel);
      var xs := ExpandFields(env, b, uri, fuel).value;
      assert xs[..|xs| - 1] == ExpandFields(env, b[..n], uri, fuel).value;
      if !Has(a, b[n].key) {
        ExpandFieldsSnoc(env, NewFields(a, b[..n]), b[n], uri, fuel);
      }
    }
  }

  /** Merging an expanded target with unexpanded members and expanding that expands the members only. */
  lemma MergeExpands(env: Env, a: seq<Field>, b: seq<Field>, uri: string, fuel: nat)
    requires RefFreeFields(a) && !Has(b, REF) && UniqueKeys(b)
    ensures ExpandFields(env, Merge(a, b), uri, fuel) ==
            if ExpandFields(env, b, uri, fuel).None? then None else Some(Merge(a, ExpandFields(env, b, uri, fuel).value))
  {
    if ExpandFields(env, b, uri, fuel).Some? {
      OverrideExpands(env, a, b, uri, fuel);
      NewFieldsExpand(env, a, b, uri, fuel);
      ExpandFieldsAppend(env, Override(a, b), NewFields(a, b), uri, fuel);
    } else {
      MergeNoRef(a, b);
      ExpandFieldsSome(env, b, uri, fuel);
      ExpandFieldsSome(env, Merge(a, b), uri, fuel);
      var f :| f in b && Expand(env, f.value, uri, fuel).None?;
      var j :| 0 <= j < |b| && b[j] == f;
      MergeHolds(a, b, j);
    }
  }

  lemma MergeNoRef(a: seq<Field>, b: seq<Field>)
    requires RefFreeFields(a) && !Has(b, REF)
    ensures !Has(Merge(a, b), REF)
  {
    OverrideAt(a, b);
    NewFieldsAre(a, b);
    assert forall i :: 0 <= i < |a| ==> RefFreeField(a[i]);
    forall i | 0 <= i < |Merge(a, b)| ensures Merge(a, b)[i].key != REF {
      if i >= |a| {
        assert NewFields(a, b)[i - |a|] in NewFields(a, b);
      }
    }
  }

  // ----- targets -----

  /** The reference tokens of a fragment: percent-decoded, then `~1` and `~0` undone. */
  function Tokens(env: Env, segments: seq<string>): Option<seq<string>> {
    if segments == [] then Some([])
    else
      var first := env.decode(segments[0]);
      var rest := Tokens(env, segments[1..]);
      if first.None? || rest.None? then None else Some([Unescape(first.value)] + rest.value)
  }

  /** The tokens are applied to objects only. */
  ghost predicate ThroughObjects(v: Json, tokens: seq<string>)
    decreases |tokens|
  {
    tokens == [] || (v.Obj? && (Child(v, tokens[0]).Some? ==> ThroughObjects(Child(v, tokens[0]).value, tokens[1..])))
  }

  /** Targets are those of section 4 of RFC 6901, except that arrays cannot be entered. */
  lemma {:induction false} WalkIsPointer(env: Env, v: Json, segments: seq<string>, w: Json)
    ensures Walk(env, v, segments) == Some(w) <==>
            && Tokens(env, segments).Some?
            && Evaluate(v, Tokens(env, segments).value) == Some(w)
            && ThroughObjects(v, Tokens(env, segments).value)
    decreases |segments|
  {
    if segments != [] {
      var segment := env.decode(segments[0]);
      var rest := Tokens(env, segments[1..]);
      if segment.Some? && v.Obj? && Has(v.fields, Unescape(segment.value)) {
        var child := Get(v.fields, Unescape(segment.value));
        WalkIsPointer(env, child, segments[1..], w);
        if rest.Some? {
          var tokens := [Unescape(segment.value)] + rest.value;
          assert tokens[1..] == rest.value;
          assert Child(v, tokens[0]) == Some(child);
        }
      }
    }
  }

  /** The segments of a fragment, joined by slashes. */
  function Joined(segments: seq<string>): string
    requires segments != []
  {
    if |segments| == 1 then segments[0] else segments[0] + "/" + Joined(segments[1..])
  }

  lemma {:induction false} SplitJoined(segments: seq<string>)
    requires segments != [] && forall i :: 0 <= i < |segments| ==> '/' !in segments[i]
    ensures Split(Joined(segments), '/') == segments
    decreases |segments|
  {
    hide Split;
    if |segments| == 1 {
      SplitAfter(segments[0], "");
      assert segments == [segments[0]];
    } else {
      assert forall i :: 0 <= i < |segments[1..]| ==> segments[1..][i] == segments[i + 1];
      SplitJoined(segments[1..]);
      SplitAfter(segments[0], Joined(segments[1..]));
      assert [segments[0]] + segments[1..] == segments;
    }
  }

  /**
   * What a fragment points at: nothing or a lone `#` is the whole document, `#/` and segments are a JSON
   * Pointer through objects, and nothing else points anywhere.
   */
  lemma FragmentPoints(env: Env, root: Json, fragment: string, segments: seq<string>, w: Json)
    requires segments != [] && forall i :: 0 <= i < |segments| ==> '/' !in segments[i]
    ensures fragment == "" || fragment == "#" ==> PointerValue(env, root, fragment) == Some(root)
    ensures fragment == "#/" + Joined(segments) ==>
              (PointerValue(env, root, fragment) == Some(w) <==>
                 && Tokens(env, segments).Some?
                 && Evaluate(root, Tokens(env, segments).value) == Some(w)
                 && ThroughObjects(root, Tokens(env, segments).value))
    ensures fragment != "" && fragment != "#" && !("#/" <= fragment) ==> PointerValue(env, root, fragment).None?
  {
    hide Walk, Tokens, Evaluate, ThroughObjects, Split, Joined;
    if fragment == "#/" + Joined(segments) {
      SplitJoined(segments);
      assert fragment[2..] == Joined(segments) && fragment[..2] == "#/";
      WalkIsPointer(env, root, segments, w);
    }
  }

  // ----- references -----

  lemma {:induction false} SeparateJoin(document: string, fragment: string)
    requires '#' !in document && (fragment == "" || fragment[0] == '#')
    ensures Separate(document + fragment) == (document, fragment)
    decreases |document|
  {
    if document == "" {
      assert document + fragment == fragment;
    } else {
      assert (document + fragment)[1..] == document[1..] + fragment;
      SeparateJoin(document[1..], fragment);
      assert [document[0]] + document[1..] == document;
    }
  }

  /** The document a reference speaks of: the one it is in, or one named relative to that. */
  function Home(env: Env, document: string, uri: string): string {
    if document == "" then uri else env.canonical(document, uri)
  }

  /** What stands at a fragment of a document, if anything. */
  function At(env: Env, home: string, fragment: string): Option<Json> {
    if Library(env, home).None? then None else PointerValue(env, Library(env, home).value, fragment)
  }

  lemma LoneReferenceExpands(env: Env, document: string, fragment: string, uri: string, fuel: nat)
    requires '#' !in document && (fragment == "" || fragment[0] == '#')
    ensures var held := Obj([Field(REF, Str(document + fragment))]);
            var home := Home(env, document, uri);
            Expand(env, held, uri, fuel) ==
            if fuel == 0 || At(env, home, fragment).None? then None
            else Expand(env, At(env, home, fragment).value, home, fuel - 1)
  {
    var fields := [Field(REF, Str(document + fragment))];
    SeparateJoin(document, fragment);
    assert fields[0] == Field(REF, Str(document + fragment));
    assert Has(fields, REF) && Get(fields, REF) == Str(document + fragment);
    assert fields[..0] == [];
    assert ExpandFields(env, fields, uri, fuel) == Some([]);
  }

  /**
   * An object that is just a reference means what its target means, read in the target's own document.
   * Relative references start from the document that holds them.
   */
  lemma LoneReferenceMeans(env: Env, document: string, fragment: string, uri: string, r: Json)
    requires '#' !in document && (fragment == "" || fragment[0] == '#')
    ensures var home := Home(env, document, uri);
            Means(env, Obj([Field(REF, Str(document + fragment))]), uri, r) <==>
            At(env, home, fragment).Some? && Means(env, At(env, home, fragment).value, home, r)
  {
    var held := Obj([Field(REF, Str(document + fragment))]);
    var home := Home(env, document, uri);
    hide Expand, At, Home;
    if Means(env, held, uri, r) {
      var f: nat :| Expand(env, held, uri, f) == Some(r);
      LoneReferenceExpands(env, document, fragment, uri, f);
      assert Expand(env, At(env, home, fragment).value, home, f - 1) == Some(r);
    }
    if At(env, home, fragment).Some? && Means(env, At(env, home, fragment).value, home, r) {
      var f: nat :| Expand(env, At(env, home, fragment).value, home, f) == Some(r);
      LoneReferenceExpands(env, document, fragment, uri, f + 1);
      assert Expand(env, held, uri, f + 1) == Some(r);
    }
  }

  // ----- members beside a reference override the target's -----

  lemma NewFieldsHas(a: seq<Field>, b: seq<Field>, key: string)
    ensures Has(NewFields(a, b), key) <==> Has(b, key) && !Has(a, key)
  {
    NewFieldsAre(a, b);
    var n := NewFields(a, b);
    if Has(n, key) {
      var i :| 0 <= i < |n| && n[i].key == key;
      assert n[i] in n;
      var j :| 0 <= j < |b| && b[j] == n[i];
    }
    if Has(b, key) && !Has(a, key) {
      var j :| 0 <= j < |b| && b[j].key == key;
      assert b[j] in n;
      var i :| 0 <= i < |n| && n[i] == b[j];
    }
  }

  lemma MergeHas(a: seq<Field>, b: seq<Field>, key: string)
    ensures Has(Merge(a, b), key) ==> Has(a, key) || Has(b, key)
  {
    OverrideAt(a, b);
    NewFieldsHas(a, b, key);
    hide Override, NewFields;
    var m := Merge(a, b);
    if Has(m, key) {
      var i :| 0 <= i < |m| && m[i].key == key;
      if i < |a| {
        assert a[i].key == key;
      } else {
        assert NewFields(a, b)[i - |a|].key == key;
      }
    }
  }

  lemma MergeTakesB(a: seq<Field>, b: seq<Field>, key: string)
    requires UniqueKeys(a) && UniqueKeys(b) && Has(b, key)
    ensures Has(Merge(a, b), key) && Get(Merge(a, b), key) == Get(b, key)
  {
    MergeUnique(a, b);
    var j :| 0 <= j < |b| && b[j] == Field(key, Get(b, key));
    MergeHolds(a, b, j);
    var m := Merge(a, b);
    hide Merge;
    var i :| 0 <= i < |m| && m[i] == b[j];
    GetUnique(m, i);
  }

  lemma MergeTakesA(a: seq<Field>, b: seq<Field>, key: string)
    requires UniqueKeys(a) && UniqueKeys(b) && Has(a, key) && !Has(b, key)
    ensures Has(Merge(a, b), key) && Get(Merge(a, b), key) == Get(a, key)
  {
    MergeUnique(a, b);
    OverrideAt(a, b);
    hide Override, NewFields;
    var m := Merge(a, b);
    var i :| 0 <= i < |a| && a[i] == Field(key, Get(a, key));
    assert m[i] == a[i];
    GetUnique(m, i);
  }

  /** Looking a name up after merging: the overriding side first. */
  lemma MergeLookup(a: seq<Field>, b: seq<Field>, key: string)
    requires UniqueKeys(a) && UniqueKeys(b)
    ensures Has(Merge(a, b), key) <==> Has(a, key) || Has(b, key)
    ensures Has(b, key) ==> Get(Merge(a, b), key) == Get(b, key)
    ensures Has(a, key) && !Has(b, key) ==> Get(Merge(a, b), key) == Get(a, key)
  {
    hide Merge, Has, UniqueKeys;
    MergeHas(a, b, key);
    if Has(b, key) {
      MergeTakesB(a, b, key);
    } else if Has(a, key) {
      MergeTakesA(a, b, key);
    }
  }

  /** The members of an object other than a reference. */
  predicate Beside(fields: seq<Field>, key: string) {
    Has(fields, key) && key != REF
  }

  lemma SiblingLookup(fields: seq<Field>, key: string)
    requires UniqueKeys(fields)
    ensures Has(Siblings(fields), key) <==> Beside(fields, key)
    ensures Beside(fields, key) ==> Get(Siblings(fields), key) == Get(fields, key)
  {
    SiblingsAre(fields);
    var s := Siblings(fields);
    if Beside(fields, key) {
      var i :| 0 <= i < |fields| && fields[i] == Field(key, Get(fields, key));
      assert fields[i] in s;
      var j :| 0 <= j < |s| && s[j] == fields[i];
      GetUnique(s, j);
    }
    if Has(s, key) {
      var j :| 0 <= j < |s| && s[j].key == key;
      assert s[j] in s;
      var i :| 0 <= i < |fields| && fields[i] == s[j];
    }
  }

  /** What an expanded object says about one name. */
  ghost predicate SaysAbout(env: Env, fields: seq<Field>, uri: string, resolved: Json, r: Json, key: string) {
    && r.Obj?
    && (Beside(fields, key) ==> Has(r.fields, key) && Means(env, Get(fields, key), uri, Get(r.fields, key)))
    && (!Beside(fields, key) ==>
          && (Has(r.fields, key) <==> resolved.Obj? && Has(resolved.fields, key))
          && (Has(r.fields, key) ==> Get(r.fields, key) == Get(resolved.fields, key)))
  }

  /** A target with expanded members beside it, looked up name by name. */
  lemma CombinedLookup(env: Env, fields: seq<Field>, uri: string, resolved: Json, fuel: nat, key: string)
    requires Clean(Obj(fields)) && RefFree(resolved) && Siblings(fields) != []
    requires ExpandFields(env, fields, uri, fuel).Some?
    ensures SaysAbout(env, fields, uri, resolved, Combine(resolved, ExpandFields(env, fields, uri, fuel).value), key)
  {
    var siblings, xs := Siblings(fields), ExpandFields(env, fields, uri, fuel).value;
    assert CleanFields(fields) && UniqueKeys(fields);
    assert resolved.Obj? ==> UniqueKeys(resolved.fields);
    SiblingsExpand(env, fields, uri, fuel);
    SiblingsAre(fields);
    assert !Has(siblings, REF);
    GetExpands(env, siblings, uri, fuel, key);
    GetExpands(env, siblings, uri, fuel, siblings[0].key);
    ExpandFieldsKeys(env, siblings, uri, fuel);
    SiblingLookup(fields, key);
    assert Has(siblings, siblings[0].key);
    hide Clean, RefFree, Expand, ExpandFields, Siblings, Merge, Has;
    assert xs != [] by {
      NothingHas(xs, siblings[0].key);
    }
    if resolved.Obj? {
      MergeLookup(resolved.fields, xs, key);
    }
    if Beside(fields, key) {
      assert Expand(env, Get(fields, key), uri, fuel) == Some(Get(xs, key));
    }
  }

  lemma NothingHas(fields: seq<Field>, key: string)
    requires Has(fields, key)
    ensures fields != []
  {}

  /**
   * A reference with members beside it: alone it means its target; otherwise the result is an object in
   * which every member beside the reference has its own meaning, read where the reference stands, and
   * every other member is the target's.
   */
  lemma SiblingsOverride(env: Env, fields: seq<Field>, document: string, fragment: string, uri: string, resolved: Json, r: Json)
    requires '#' !in document && (fragment == "" || fragment[0] == '#')
    requires Clean(Obj(fields)) && RefFree(resolved) && RefOf(fields) == Some(document + fragment)
    requires At(env, Home(env, document, uri), fragment).Some?
    requires Means(env, At(env, Home(env, document, uri), fragment).value, Home(env, document, uri), resolved)
    requires Means(env, Obj(fields), uri, r)
    ensures (forall key :: !Beside(fields, key)) ==> r == resolved
    ensures (exists key :: Beside(fields, key)) ==> forall key :: SaysAbout(env, fields, uri, resolved, r, key)
  {
    var f: nat :| Expand(env, Obj(fields), uri, f) == Some(r);
    ReferenceUnfolds(env, fields, document, fragment, uri, resolved, f);
    assert CleanFields(fields) && UniqueKeys(fields);
    SiblingsExpand(env, fields, uri, f);
    if Siblings(fields) != [] {
      forall key ensures SaysAbout(env, fields, uri, resolved, r, key) {
        CombinedLookup(env, fields, uri, resolved, f, key);
      }
      SiblingLookup(fields, Siblings(fields)[0].key);
      assert Has(Siblings(fields), Siblings(fields)[0].key);
    } else {
      forall key ensures !Beside(fields, key) {
        SiblingLookup(fields, key);
      }
    }
  }

  lemma ReferenceUnfolds(
      env: Env, fields: seq<Field>, document: string, fragment: string, uri: string, resolved: Json, fuel: nat)
    requires '#' !in document && (fragment == "" || fragment[0] == '#')
    requires RefOf(fields) == Some(document + fragment) && Expand(env, Obj(fields), uri, fuel).Some?
    requires At(env, Home(env, document, uri), fragment).Some?
    requires Means(env, At(env, Home(env, document, uri), fragment).value, Home(env, document, uri), resolved)
    ensures ExpandFields(env, fields, uri, fuel).Some?
    ensures Expand(env, Obj(fields), uri, fuel) == Some(Combine(resolved, ExpandFields(env, fields, uri, fuel).value))
  {
    SeparateJoin(document, fragment);
    var home := Home(env, document, uri);
    var target := At(env, home, fragment).value;
    var t := TargetOf(env, document + fragment, uri);
    assert t == Target(home, fragment) && Resolve(env, t) == Some(target);
    assert fuel > 0 && ExpandTarget(env, t, fuel - 1).Some?;
    var other := ExpandTarget(env, t, fuel - 1).value;
    assert Expand(env, target, home, fuel - 1) == Some(other);
    MeaningUnique(env, target, home, other, resolved);
  }
}
