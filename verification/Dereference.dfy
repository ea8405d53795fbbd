/**
 * The dereferencing traversal: one pass with budgets, a document cache and a set of references being
 * followed, proved to compute the substitution of `OpenApi.Expand` or to fail for a good reason.
 */
module Dereference {
  import opened Base
  import opened Json
  import opened Limits
  import opened OpenApi
  import opened OpenApiLaws
  import opened DerefCost
  import Structure

  // ----- failing for a good reason -----

  /** With how much fuel a value can be expanded. */
  ghost function Expands(env: Env, v: Json, uri: string): nat -> bool {
    (f: nat) => Expand(env, v, uri, f).Some?
  }

  ghost function TargetExpands(env: Env, t: Target): nat -> bool {
    (f: nat) => ExpandTarget(env, t, f).Some?
  }

  ghost predicate Never(d: nat -> bool) {
    forall f: nat :: !d(f)
  }

  ghost predicate WellFormed(t: Target) {
    '#' !in t.uri && (t.fragment == "" || t.fragment[0] == '#')
  }

  ghost predicate IdentityExpands(env: Env, id: string, fuel: nat) {
    exists t: Target :: Identity(t) == id && WellFormed(t) && ExpandTarget(env, t, fuel).Some?
  }

  /** Expanding needs the reference `id` expanded first, with less fuel. */
  ghost predicate Needs(env: Env, d: nat -> bool, id: string) {
    forall f: nat :: d(f) ==> f > 0 && IdentityExpands(env, id, f - 1)
  }

  /**
   * Why a traversal may give up: a limit, a reference that leads nowhere, or a reference that is
   * needed for itself. Inside `stack` the latter is still open: it concerns an enclosing reference.
   */
  ghost predicate Rejected(env: Env, stack: set<string>, e: DerefError, d: nat -> bool) {
    match e
    case OverBudget => true
    case NotAnObject => false
    case Unresolvable => Never(d)
    case Cyclic(id) => Needs(env, d, id) && (id in stack || Never(d))
  }

  /** Resolving a reference without `#` against a base without `#` brings none in. */
  ghost predicate HashFree(env: Env) {
    forall reference: string, base: string ::
      '#' !in reference && '#' !in base ==> '#' !in env.canonical(reference, base)
  }

  lemma RejectedBelow(env: Env, stack: set<string>, e: DerefError, d: nat -> bool, outer: nat -> bool)
    requires Rejected(env, stack, e, d)
    requires forall f: nat :: outer(f) ==> d(f)
    ensures Rejected(env, stack, e, outer)
  {}

  /** Different targets have different identities. */
  lemma IdentityInjective(a: Target, b: Target)
    requires WellFormed(a) && WellFormed(b) && Identity(a) == Identity(b)
    ensures a == b
  {
    SeparateJoin(a.uri, a.fragment);
    SeparateJoin(b.uri, b.fragment);
  }

  lemma TargetWellFormed(env: Env, ref: string, uri: string)
    requires HashFree(env) && '#' !in uri
    ensures WellFormed(TargetOf(env, ref, uri))
  {}

  /** A target that needs itself has no expansion, with any fuel. */
  lemma {:induction false} SelfNeedNever(env: Env, t: Target, f: nat)
    requires WellFormed(t) && Needs(env, TargetExpands(env, t), Identity(t))
    ensures !ExpandTarget(env, t, f).Some?
    decreases f
  {
    if TargetExpands(env, t)(f) {
      var u: Target :| Identity(u) == Identity(t) && WellFormed(u) && ExpandTarget(env, u, f - 1).Some?;
      IdentityInjective(u, t);
      SelfNeedNever(env, t, f - 1);
    }
  }

  /** Leaving a reference: a failure of its target is a failure of whatever holds the reference. */
  lemma RejectedTarget(env: Env, stack: set<string>, e: DerefError, t: Target, outer: nat -> bool)
    requires WellFormed(t) && Rejected(env, stack + {Identity(t)}, e, TargetExpands(env, t))
    requires forall f: nat :: outer(f) ==> f > 0 && TargetExpands(env, t)(f - 1)
    ensures Rejected(env, stack, e, outer)
  {
    if e.Cyclic? {
      var id := e.identity;
      forall f: nat | outer(f) ensures f > 0 && IdentityExpands(env, id, f - 1) {
        assert TargetExpands(env, t)(f - 1);
        var u: Target :| Identity(u) == id && WellFormed(u) && ExpandTarget(env, u, f - 2).Some?;
        ExpandTargetMonotone(env, u, f - 2, f - 1);
      }
      if id == Identity(t) {
        forall f: nat ensures !TargetExpands(env, t)(f) {
          SelfNeedNever(env, t, f);
        }
      }
    }
  }

  /** Meeting a reference that is being followed already. */
  lemma RejectedCycle(env: Env, stack: set<string>, t: Target, outer: nat -> bool)
    requires WellFormed(t) && Identity(t) in stack
    requires forall f: nat :: outer(f) ==> f > 0 && TargetExpands(env, t)(f - 1)
    ensures Rejected(env, stack, Cyclic(Identity(t)), outer)
  {
    forall f: nat | outer(f) ensures f > 0 && IdentityExpands(env, Identity(t), f - 1) {
      assert TargetExpands(env, t)(f - 1);
    }
  }

  // ----- parts of a value -----

  ghost predicate ItemsMean(env: Env, items: seq<Json>, uri: string, out: seq<Json>) {
    exists f: nat :: ExpandItems(env, items, uri, f) == Some(out)
  }

  ghost predicate FieldsMean(env: Env, fields: seq<Field>, uri: string, out: seq<Field>) {
    exists f: nat :: ExpandFields(env, fields, uri, f) == Some(out)
  }

  lemma ItemsMeanStep(env: Env, items: seq<Json>, n: nat, uri: string, out: seq<Json>, x: Json)
    requires n < |items| && ItemsMean(env, items[..n], uri, out) && Means(env, items[n], uri, x)
    ensures ItemsMean(env, items[..n + 1], uri, out + [x])
  {
    var f: nat :| ExpandItems(env, items[..n], uri, f) == Some(out);
    var g: nat :| Expand(env, items[n], uri, g) == Some(x);
    ExpandItemsMonotone(env, items[..n], uri, f, f + g);
    ExpandMonotone(env, items[n], uri, g, f + g);
    var front := items[..n + 1];
    assert front[..|front| - 1] == items[..n];
    assert ExpandItems(env, front, uri, f + g) == Some(out + [x]);
  }

  lemma FieldsMeanStep(env: Env, fields: seq<Field>, n: nat, uri: string, out: seq<Field>, x: Json)
    requires n < |fields| && fields[n].key != REF
    requires FieldsMean(env, fields[..n], uri, out) && Means(env, fields[n].value, uri, x)
    ensures FieldsMean(env, fields[..n + 1], uri, out + [Field(fields[n].key, x)])
  {
    var f: nat :| ExpandFields(env, fields[..n], uri, f) == Some(out);
    var g: nat :| Expand(env, fields[n].value, uri, g) == Some(x);
    ExpandFieldsMonotone(env, fields[..n], uri, f, f + g);
    ExpandMonotone(env, fields[n].value, uri, g, f + g);
    ExpandFieldsSnoc(env, fields[..n], fields[n], uri, f + g);
    assert fields[..n + 1] == fields[..n] + [fields[n]];
    assert ExpandFields(env, fields[..n + 1], uri, f + g) == Some(out + [Field(fields[n].key, x)]);
  }

  lemma {:induction false} ItemExpands(env: Env, items: seq<Json>, n: nat, uri: string, f: nat)
    requires n < |items| && ExpandItems(env, items, uri, f).Some?
    ensures Expand(env, items[n], uri, f).Some?
    decreases |items|
  {
    if n < |items| - 1 {
      ItemExpands(env, items[..|items| - 1], n, uri, f);
    }
  }

  lemma RejectedItem(env: Env, items: seq<Json>, n: nat, uri: string, stack: set<string>, e: DerefError)
    requires n < |items| && Rejected(env, stack, e, Expands(env, items[n], uri))
    ensures Rejected(env, stack, e, Expands(env, Arr(items), uri))
  {
    forall f: nat | Expands(env, Arr(items), uri)(f) ensures Expands(env, items[n], uri)(f) {
      ItemExpands(env, items, n, uri, f);
    }
    RejectedBelow(env, stack, e, Expands(env, items[n], uri), Expands(env, Arr(items), uri));
  }

  lemma RejectedField(env: Env, fields: seq<Field>, n: nat, uri: string, stack: set<string>, e: DerefError)
    requires n < |fields| && !Has(fields, REF) && Rejected(env, stack, e, Expands(env, fields[n].value, uri))
    ensures Rejected(env, stack, e, Expands(env, Obj(fields), uri))
  {
    forall f: nat | Expands(env, Obj(fields), uri)(f) ensures Expands(env, fields[n].value, uri)(f) {
      ExpandFieldsSome(env, fields, uri, f);
      assert fields[n] in fields;
    }
    RejectedBelow(env, stack, e, Expands(env, fields[n].value, uri), Expands(env, Obj(fields), uri));
  }

  // ----- a reference and the members beside it -----

  lemma {:induction false} ExpandFieldsLength(env: Env, fields: seq<Field>, uri: string, f: nat)
    requires !Has(fields, REF) && ExpandFields(env, fields, uri, f).Some?
    ensures |ExpandFields(env, fields, uri, f).value| == |fields|
    decreases |fields|
  {
    if fields != [] {
      assert fields[|fields| - 1].key != REF;
      ExpandFieldsLength(env, fields[..|fields| - 1], uri, f);
    }
  }

  /** Expanding the combination of an expanded target and the bare siblings expands just the siblings. */
  lemma CombineExpands(env: Env, resolved: Json, fields: seq<Field>, uri: string, f: nat)
    requires RefFree(resolved) && Clean(Obj(fields))
    ensures Expand(env, Combine(resolved, Siblings(fields)), uri, f) ==
            if ExpandFields(env, fields, uri, f).None? then None
            else Some(Combine(resolved, ExpandFields(env, fields, uri, f).value))
  {
    assert CleanFields(fields);
    SiblingsAre(fields);
    SiblingsExpand(env, fields, uri, f);
    var siblings := Siblings(fields);
    assert !Has(siblings, REF);
    if ExpandFields(env, siblings, uri, f).Some? {
      ExpandFieldsLength(env, siblings, uri, f);
    }
    if siblings == [] {
      ExpandRefFree(env, resolved, uri, f);
    } else if resolved.Obj? {
      MergeExpands(env, resolved.fields, siblings, uri, f);
      MergeNoRef(resolved.fields, siblings);
    }
  }

  lemma CombineClean(resolved: Json, fields: seq<Field>)
    requires RefFree(resolved) && Clean(Obj(fields))
    ensures Clean(Combine(resolved, Siblings(fields)))
  {
    RefFreeIsClean(resolved);
    SiblingsAre(fields);
    var siblings := Siblings(fields);
    forall i | 0 <= i < |siblings| ensures CleanField(siblings[i]) {
      assert siblings[i] in siblings;
    }
    if siblings != [] && resolved.Obj? {
      MergeUnique(resolved.fields, siblings);
      OverrideKeeps(resolved.fields, siblings, CleanField);
      NewFieldsKeeps(resolved.fields, siblings, CleanField);
    }
  }

  lemma ReferenceMeans(env: Env, fields: seq<Field>, uri: string, t: Target, resolved: Json, r: Json)
    requires Clean(Obj(fields)) && RefFree(resolved)
    requires RefOf(fields).Some? && t == TargetOf(env, RefOf(fields).value, uri)
    requires Resolve(env, t).Some? && Means(env, Resolve(env, t).value, t.uri, resolved)
    requires Means(env, Combine(resolved, Siblings(fields)), uri, r)
    ensures Means(env, Obj(fields), uri, r)
  {
    hide Expand, ExpandFields, Combine, Siblings, Resolve, TargetOf, RefOf, Clean, RefFree;
    var f: nat :| Expand(env, Resolve(env, t).value, t.uri, f) == Some(resolved);
    var g: nat :| Expand(env, Combine(resolved, Siblings(fields)), uri, g) == Some(r);
    var h := f + g + 1;
    ExpandMonotone(env, Resolve(env, t).value, t.uri, f, h - 1);
    ExpandMonotone(env, Combine(resolved, Siblings(fields)), uri, g, h);
    CombineExpands(env, resolved, fields, uri, h);
    ReferenceExpands(env, fields, uri, t, h);
    assert Expand(env, Obj(fields), uri, h) == Some(r);
  }

  lemma ReferenceExpands(env: Env, fields: seq<Field>, uri: string, t: Target, f: nat)
    requires RefOf(fields).Some? && t == TargetOf(env, RefOf(fields).value, uri) && f > 0
    requires Resolve(env, t).Some? && Expand(env, Resolve(env, t).value, t.uri, f - 1).Some?
    ensures Expand(env, Obj(fields), uri, f) ==
            if ExpandFields(env, fields, uri, f).None? then None
            else Some(Combine(Expand(env, Resolve(env, t).value, t.uri, f - 1).value, ExpandFields(env, fields, uri, f).value))
  {
    hide Combine, Resolve, TargetOf, RefOf, ExpandFields;
    assert ExpandTarget(env, t, f - 1) == Expand(env, Resolve(env, t).value, t.uri, f - 1);
  }

  lemma ReferenceNeedsTarget(env: Env, fields: seq<Field>, uri: string, t: Target)
    requires RefOf(fields).Some? && t == TargetOf(env, RefOf(fields).value, uri)
    ensures forall f: nat :: Expands(env, Obj(fields), uri)(f) ==> f > 0 && TargetExpands(env, t)(f - 1)
  {
    forall f: nat | Expands(env, Obj(fields), uri)(f) ensures f > 0 && TargetExpands(env, t)(f - 1) {
      assert Expand(env, Obj(fields), uri, f).Some?;
    }
  }

  lemma RejectedSiblings(env: Env, fields: seq<Field>, uri: string, stack: set<string>, resolved: Json, e: DerefError)
    requires Clean(Obj(fields)) && RefFree(resolved)
    requires Rejected(env, stack, e, Expands(env, Combine(resolved, Siblings(fields)), uri))
    ensures Rejected(env, stack, e, Expands(env, Obj(fields), uri))
  {
    var inner := Expands(env, Combine(resolved, Siblings(fields)), uri);
    forall f: nat | Expands(env, Obj(fields), uri)(f) ensures inner(f) {
      CombineExpands(env, resolved, fields, uri, f);
      assert Expand(env, Obj(fields), uri, f).Some?;
    }
    RejectedBelow(env, stack, e, inner, Expands(env, Obj(fields), uri));
  }

  // ----- the traversal -----

  type Outcome = Result<Json, DerefError>

  /** The documents a traversal has at hand are clean. */
  ghost predicate CleanDocs(docs: map<string, Json>) {
    forall u :: u in docs ==> Clean(docs[u])
  }

  ghost predicate Extends(docs: map<string, Json>, more: map<string, Json>) {
    forall u :: u in docs ==> u in more && more[u] == docs[u]
  }

  /** If the documents at hand are clean: the substituted value without references, or a good reason. */
  ghost predicate Faithful(env: Env, docs: map<string, Json>, v: Json, uri: string, stack: set<string>, r: Outcome) {
    CleanDocs(docs) && Clean(v) ==>
      && (r.Ok? ==> Means(env, v, uri, r.value) && RefFree(r.value))
      && (r.Err? && HashFree(env) && '#' !in uri ==> Rejected(env, stack, r.error, Expands(env, v, uri)))
  }

  lemma FaithfulLater(
      env: Env, docs: map<string, Json>, more: map<string, Json>, v: Json, uri: string, stack: set<string>, r: Outcome)
    requires Faithful(env, docs, v, uri, stack, r) && Extends(docs, more)
    ensures Faithful(env, more, v, uri, stack, r)
  {
    hide Means, Rejected, Expands, RefFree, Clean;
  }

  lemma FaithfulAtom(env: Env, docs: map<string, Json>, v: Json, uri: string, stack: set<string>)
    requires !v.Arr? && !v.Obj?
    ensures Faithful(env, docs, v, uri, stack, Ok(v))
  {
    assert Expand(env, v, uri, 0) == Some(v);
  }

  ghost predicate AllRefFree(items: seq<Json>) {
    forall i :: 0 <= i < |items| ==> RefFree(items[i])
  }

  /** The items visited so far, if everything they came from is clean. */
  ghost predicate ItemsDone(env: Env, docs: map<string, Json>, all: seq<Json>, n: nat, uri: string, out: seq<Json>)
    requires n <= |all|
  {
    CleanDocs(docs) && Clean(Arr(all)) ==> ItemsMean(env, all[..n], uri, out) && AllRefFree(out)
  }

  lemma FaithfulItems(env: Env, docs: map<string, Json>, items: seq<Json>, uri: string, stack: set<string>, out: seq<Json>)
    requires ItemsDone(env, docs, items, |items|, uri, out)
    ensures Faithful(env, docs, Arr(items), uri, stack, Ok(Arr(out)))
  {
    if CleanDocs(docs) && Clean(Arr(items)) {
      assert items[..|items|] == items;
      var f: nat :| ExpandItems(env, items, uri, f) == Some(out);
      assert Expand(env, Arr(items), uri, f) == Some(Arr(out));
    }
  }

  lemma FaithfulItem(
      env: Env, docs: map<string, Json>, more: map<string, Json>, items: seq<Json>, n: nat, uri: string, stack: set<string>,
      out: seq<Json>, r: Outcome)
    requires n < |items| && Extends(docs, more) && Faithful(env, more, items[n], uri, stack, r)
    requires ItemsDone(env, docs, items, n, uri, out)
    ensures r.Ok? ==> ItemsDone(env, more, items, n + 1, uri, out + [r.value])
    ensures r.Err? ==> Faithful(env, more, Arr(items), uri, stack, r)
  {
    if CleanDocs(more) && Clean(Arr(items)) {
      assert Clean(items[n]);
      hide Clean, ItemsMean, Means, Rejected, Expands, RefFree;
      assert CleanDocs(docs);
      if r.Ok? {
        ItemsMeanStep(env, items, n, uri, out, r.value);
        assert AllRefFree(out + [r.value]);
      } else if HashFree(env) && '#' !in uri {
        RejectedItem(env, items, n, uri, stack, r.error);
      }
    }
  }

  /** The members visited so far, if everything they came from is clean. */
  ghost predicate FieldsDone(env: Env, docs: map<string, Json>, all: seq<Field>, n: nat, uri: string, out: seq<Field>)
    requires n <= |all|
  {
    CleanDocs(docs) && Clean(Obj(all)) ==> FieldsMean(env, all[..n], uri, out) && RefFreeFields(out)
  }

  lemma FaithfulFields(env: Env, docs: map<string, Json>, fields: seq<Field>, uri: string, stack: set<string>, out: seq<Field>)
    requires RefOf(fields).None? && FieldsDone(env, docs, fields, |fields|, uri, out)
    ensures Faithful(env, docs, Obj(fields), uri, stack, Ok(Obj(out)))
  {
    if CleanDocs(docs) && Clean(Obj(fields)) {
      assert fields[..|fields|] == fields;
      var f: nat :| ExpandFields(env, fields, uri, f) == Some(out);
      assert Expand(env, Obj(fields), uri, f) == Some(Obj(out));
      ExpandFieldsKeys(env, fields, uri, f);
      assert RefFree(Obj(out));
    }
  }

  lemma CleanRef(fields: seq<Field>)
    requires Clean(Obj(fields))
    ensures Has(fields, REF) <==> RefOf(fields).Some?
  {
    if Has(fields, REF) {
      var v := Get(fields, REF);
      var i :| 0 <= i < |fields| && fields[i] == Field(REF, v);
      assert CleanField(fields[i]);
    }
  }

  lemma FaithfulField(
      env: Env, docs: map<string, Json>, more: map<string, Json>, fields: seq<Field>, n: nat, uri: string, stack: set<string>,
      out: seq<Field>, r: Outcome)
    requires n < |fields| && RefOf(fields).None? && Extends(docs, more) && Faithful(env, more, fields[n].value, uri, stack, r)
    requires FieldsDone(env, docs, fields, n, uri, out)
    ensures r.Ok? ==> FieldsDone(env, more, fields, n + 1, uri, out + [Field(fields[n].key, r.value)])
    ensures r.Err? ==> Faithful(env, more, Obj(fields), uri, stack, r)
  {
    if CleanDocs(more) && Clean(Obj(fields)) {
      CleanRef(fields);
      assert CleanField(fields[n]);
      assert fields[n].key != REF;
      hide Clean, FieldsMean, Means, Rejected, Expands, RefFree;
      assert CleanDocs(docs);
      if r.Ok? {
        FieldsMeanStep(env, fields, n, uri, out, r.value);
        assert RefFreeField(Field(fields[n].key, r.value));
        assert RefFreeFields(out + [Field(fields[n].key, r.value)]);
      } else if HashFree(env) && '#' !in uri {
        RejectedField(env, fields, n, uri, stack, r.error);
      }
    }
  }

  lemma FaithfulCycle(env: Env, docs: map<string, Json>, fields: seq<Field>, uri: string, stack: set<string>, t: Target)
    requires RefOf(fields).Some? && t == TargetOf(env, RefOf(fields).value, uri) && Identity(t) in stack
    ensures Faithful(env, docs, Obj(fields), uri, stack, Err(Cyclic(Identity(t))))
  {
    if HashFree(env) && '#' !in uri {
      TargetWellFormed(env, RefOf(fields).value, uri);
      ReferenceNeedsTarget(env, fields, uri, t);
      RejectedCycle(env, stack, t, Expands(env, Obj(fields), uri));
    }
  }

  lemma FaithfulNowhere(env: Env, docs: map<string, Json>, fields: seq<Field>, uri: string, stack: set<string>, t: Target)
    requires RefOf(fields).Some? && t == TargetOf(env, RefOf(fields).value, uri) && Resolve(env, t).None?
    ensures Faithful(env, docs, Obj(fields), uri, stack, Err(Unresolvable))
  {
    ReferenceNeedsTarget(env, fields, uri, t);
    assert forall f: nat :: !TargetExpands(env, t)(f);
  }

  /** The target lies in a document at hand. */
  ghost predicate AtHand(env: Env, docs: map<string, Json>, t: Target) {
    t.uri in docs && Library(env, t.uri) == Some(docs[t.uri]) && Resolve(env, t).Some?
  }

  lemma AtHandClean(env: Env, docs: map<string, Json>, t: Target)
    requires AtHand(env, docs, t) && CleanDocs(docs)
    ensures Clean(Resolve(env, t).value)
  {
    PointerClean(env, docs[t.uri], t.fragment);
  }

  lemma FaithfulBrokenTarget(
      env: Env, docs: map<string, Json>, fields: seq<Field>, uri: string, stack: set<string>, t: Target, r: Outcome)
    requires RefOf(fields).Some? && t == TargetOf(env, RefOf(fields).value, uri) && AtHand(env, docs, t)
    requires r.Err? && Faithful(env, docs, Resolve(env, t).value, t.uri, stack + {Identity(t)}, r)
    ensures Faithful(env, docs, Obj(fields), uri, stack, r)
  {
    if CleanDocs(docs) && HashFree(env) && '#' !in uri {
      TargetWellFormed(env, RefOf(fields).value, uri);
      ReferenceNeedsTarget(env, fields, uri, t);
      AtHandClean(env, docs, t);
      forall f: nat | TargetExpands(env, t)(f) ensures Expands(env, Resolve(env, t).value, t.uri)(f) {
        assert ExpandTarget(env, t, f).Some?;
      }
      RejectedBelow(env, stack + {Identity(t)}, r.error, Expands(env, Resolve(env, t).value, t.uri), TargetExpands(env, t));
      RejectedTarget(env, stack, r.error, t, Expands(env, Obj(fields), uri));
    }
  }

  lemma FaithfulReference(
      env: Env, docs: map<string, Json>, fields: seq<Field>, uri: string, stack: set<string>, t: Target, resolved: Json, r: Outcome)
    requires RefOf(fields).Some? && t == TargetOf(env, RefOf(fields).value, uri) && AtHand(env, docs, t)
    requires Faithful(env, docs, Resolve(env, t).value, t.uri, stack + {Identity(t)}, Ok(resolved))
    requires if Siblings(fields) == [] then r == Ok(resolved)
             else Faithful(env, docs, Combine(resolved, Siblings(fields)), uri, stack, r)
    ensures Faithful(env, docs, Obj(fields), uri, stack, r)
  {
    if CleanDocs(docs) && Clean(Obj(fields)) {
      AtHandClean(env, docs, t);
      CombineClean(resolved, fields);
      hide Clean, Rejected, Expands, RefFree;
      if Siblings(fields) == [] {
        ExpandRefFree(env, resolved, uri, 0);
      }
      if r.Ok? {
        ReferenceMeans(env, fields, uri, t, resolved, r.value);
      } else if HashFree(env) && '#' !in uri {
        RejectedSiblings(env, fields, uri, stack, resolved, r.error);
      }
    }
  }

  // ----- counting -----

  function Room(depth: nat): nat {
    if depth > MAX_DEPTH then 0 else MAX_DEPTH + 1 - depth
  }

  /** A document that can be loaded but breaks a limit of its own. */
  ghost predicate BadDocument(env: Env, uri: string) {
    && uri !in env.given && env.load(uri).Some?
    && (env.load(uri).value.size > MAX_FILE_BYTES || !Structure.ValidStructure(env.load(uri).value.root))
  }

  /** Too many documents, too many bytes, or a document that is too large. */
  ghost predicate Overloaded(env: Env, documents: nat, bytes: nat) {
    documents > MAX_DOCUMENTS || bytes > MAX_TOTAL_BYTES || exists uri :: BadDocument(env, uri)
  }

  /** Each loaded document counts once; the one that breaks a limit counts too, but is not kept. */
  predicate Counted(done: bool, documents: int, kept: int) {
    if done then documents == kept else kept <= documents <= kept + 1
  }

  /** If the documents at hand are clean, what was counted is what the value costs. */
  ghost predicate Frugal(
      docs: map<string, Json>, v: Json, cost: Option<Cost>, before: Meter, after: Meter, r: Outcome, overloaded: bool)
  {
    CleanDocs(docs) && Clean(v) ==> Metered(cost, before, after, r.Ok?, r == Err(OverBudget) && !overloaded)
  }

  lemma FrugalItem(
      env: Env, docs: map<string, Json>, more: map<string, Json>, items: seq<Json>, n: nat, uri: string, room: nat,
      before: Meter, between: Meter, after: Meter, r: Outcome, overloaded: bool)
    requires n < |items| && Extends(docs, more)
    requires Frugal(docs, Arr(items), CostItems(env, items[..n], uri, room), before, between, Ok(Null), false)
    requires Frugal(more, items[n], CostOf(env, items[n], uri, room), between, after, r, overloaded)
    ensures r.Ok? ==> Frugal(more, Arr(items), CostItems(env, items[..n + 1], uri, room), before, after, Ok(Null), false)
    ensures r.Err? ==> Frugal(more, Arr(items), CostItems(env, items, uri, room), before, after, r, overloaded)
  {
    if CleanDocs(more) && Clean(Arr(items)) {
      assert Clean(items[n]);
      hide Clean, CostItems, CostOf, Metered;
      assert CleanDocs(docs);
      MeteredItem(env, items, n, uri, room, before, between, after, r.Ok?, r == Err(OverBudget) && !overloaded);
      NotMetered(CostItems(env, items, uri, room), before, after);
    }
  }

  lemma FrugalField(
      env: Env, docs: map<string, Json>, more: map<string, Json>, fields: seq<Field>, n: nat, uri: string, room: nat,
      before: Meter, between: Meter, after: Meter, r: Outcome, overloaded: bool)
    requires n < |fields| && Extends(docs, more)
    requires Frugal(docs, Obj(fields), CostFields(env, fields[..n], uri, room), before, between, Ok(Null), false)
    requires Frugal(more, fields[n].value, CostOf(env, fields[n].value, uri, room), between, after, r, overloaded)
    ensures r.Ok? ==> Frugal(more, Obj(fields), CostFields(env, fields[..n + 1], uri, room), before, after, Ok(Null), false)
    ensures r.Err? ==> Frugal(more, Obj(fields), CostFields(env, fields, uri, room), before, after, r, overloaded)
  {
    if CleanDocs(more) && Clean(Obj(fields)) {
      assert CleanField(fields[n]);
      hide Clean, CostFields, CostOf, Metered;
      assert CleanDocs(docs);
      MeteredField(env, fields, n, uri, room, before, between, after, r.Ok?, r == Err(OverBudget) && !overloaded);
      NotMetered(CostFields(env, fields, uri, room), before, after);
    }
  }

  lemma NotMetered(cost: Option<Cost>, before: Meter, after: Meter)
    ensures Metered(cost, before, after, false, false)
  {}

  /** A value around parts that were counted after it. */
  lemma FrugalNode(env: Env, docs: map<string, Json>, v: Json, parts: Option<Cost>, before: Meter, after: Meter, r: Outcome, overloaded: bool)
    requires Frugal(docs, v, parts, Meter(before.nodes + 1, before.refs), after, r, overloaded)
    ensures Frugal(docs, v, Plus(NODE, parts), before, after, r, overloaded)
  {}

  lemma FrugalNothing(docs: map<string, Json>, env: Env, items: seq<Json>, fields: seq<Field>, uri: string, room: nat, before: Meter)
    ensures Frugal(docs, Arr(items), CostItems(env, items[..0], uri, room), before, before, Ok(Null), false)
    ensures Frugal(docs, Obj(fields), CostFields(env, fields[..0], uri, room), before, before, Ok(Null), false)
  {
    assert items[..0] == [] && fields[..0] == [];
  }

  /** A failure that is no matter of limits, or one over documents, says nothing about the cost. */
  lemma FrugalOther(docs: map<string, Json>, v: Json, cost: Option<Cost>, before: Meter, after: Meter, r: Outcome, overloaded: bool)
    requires r.Err? && (r.error != OverBudget || overloaded)
    ensures Frugal(docs, v, cost, before, after, r, overloaded)
  {}

  /** A reference whose target could not be visited. */
  lemma FrugalBrokenTarget(
      env: Env, docs: map<string, Json>, fields: seq<Field>, uri: string, room: nat, t: Target,
      before: Meter, after: Meter, r: Outcome, overloaded: bool)
    requires RefOf(fields).Some? && t == TargetOf(env, RefOf(fields).value, uri) && AtHand(env, docs, t) && r.Err?
    requires Frugal(docs, Resolve(env, t).value, CostOf(env, Resolve(env, t).value, t.uri, room),
                    Meter(before.nodes + 1, before.refs + 1), after, r, overloaded)
    ensures Frugal(docs, Obj(fields), CostOf(env, Obj(fields), uri, room + 1), before, after, r, overloaded)
  {
    if CleanDocs(docs) {
      AtHandClean(env, docs, t);
      ReferenceCostsTarget(env, fields, uri, room, t, before);
      hide CostOf, Clean;
    }
  }

  /** A reference whose target, and then whatever is combined with it, was visited. */
  lemma FrugalReference(
      env: Env, docs: map<string, Json>, more: map<string, Json>, fields: seq<Field>, uri: string, stack: set<string>, room: nat,
      t: Target, resolved: Json, before: Meter, between: Meter, after: Meter, r: Outcome, overloaded: bool)
    requires RefOf(fields).Some? && t == TargetOf(env, RefOf(fields).value, uri) && AtHand(env, docs, t) && Extends(docs, more)
    requires Faithful(env, docs, Resolve(env, t).value, t.uri, stack, Ok(resolved))
    requires Frugal(docs, Resolve(env, t).value, CostOf(env, Resolve(env, t).value, t.uri, room),
                    Meter(before.nodes + 1, before.refs + 1), between, Ok(resolved), false)
    requires if Siblings(fields) == [] then r == Ok(resolved) && after == between
             else Frugal(more, Combine(resolved, Siblings(fields)), CostOf(env, Combine(resolved, Siblings(fields)), uri, room),
                         between, after, r, overloaded)
    ensures Frugal(more, Obj(fields), CostOf(env, Obj(fields), uri, room + 1), before, after, r, overloaded)
  {
    hide Clean, CostOf, RefFree, Means, Combine, Siblings, Resolve, TargetOf, RefOf, Metered, Plus, Rejected;
    if CleanDocs(more) && Clean(Obj(fields)) {
      assert CleanDocs(docs);
      AtHandClean(env, docs, t);
      CombineClean(resolved, fields);
      ReferenceCost(env, fields, uri, room, t, resolved);
      var target := CostOf(env, Resolve(env, t).value, t.uri, room);
      var first := Plus(REFERENCE, target);
      MeteredReference(target, before, between);
      if Siblings(fields) == [] {
        MeteredOk(first, before, between, r == Err(OverBudget) && !overloaded);
      } else {
        MeteredTwice(first, CostOf(env, Combine(resolved, Siblings(fields)), uri, room), before, between, after,
                     r.Ok?, r == Err(OverBudget) && !overloaded);
      }
    }
  }

  class Dereferencer {
    const env: Env
    var cache: map<string, Json>
    var documents: nat
    var bytes: nat
    var nodes: nat
    var refs: nat

    /** The cache holds the given documents and nothing but what the URIs stand for. */
    ghost predicate Valid() reads this {
      && (forall u :: u in env.given ==> u in cache)
      && (forall u :: u in cache ==> Library(env, u) == Some(cache[u]))
    }

    constructor (env: Env, documents: nat, bytes: nat)
      ensures Valid() && this.env == env && nodes == 0 && refs == 0
      ensures cache == env.given && this.documents == documents && this.bytes == bytes
    {
      this.env := env;
      cache := env.given;
      this.documents, this.bytes, nodes, refs := documents, bytes, 0, 0;
    }

    /** A document by URI: the cached one, or the loaded text within the limits, which is then cached. */
    method Load(uri: string) returns (r: Result<Json, DerefError>)
      requires Valid()
      modifies this
      ensures Valid() && nodes == old(nodes) && refs == old(refs) && Extends(old(cache), cache)
      ensures r.Ok? ==> Library(env, uri) == Some(r.value) && cache == old(cache)[uri := r.value]
      ensures r.Err? ==> (r.error == OverBudget && Overloaded(env, documents, bytes))
                         || (r.error == Unresolvable && Library(env, uri).None?)
      ensures uri in old(cache) ==> documents == old(documents) && bytes == old(bytes)
      ensures r.Ok? && uri !in old(cache) ==>
                && env.load(uri).Some? && Structure.ValidStructure(r.value)
                && documents == old(documents) + 1 <= MAX_DOCUMENTS
                && bytes == old(bytes) + env.load(uri).value.size <= MAX_TOTAL_BYTES
      ensures Counted(r.Ok?, documents - old(documents), |cache| - |old(cache)|)
    {
      if uri in cache {
        assert cache == cache[uri := cache[uri]];
        return Ok(cache[uri]);
      }
      var loaded := env.load(uri);
      if loaded.None? {
        return Err(Unresolvable);
      }
      if loaded.value.size > MAX_FILE_BYTES {
        assert BadDocument(env, uri);
        return Err(OverBudget);
      }
      documents := documents + 1;
      bytes := bytes + loaded.value.size;
      if documents > MAX_DOCUMENTS || bytes > MAX_TOTAL_BYTES {
        return Err(OverBudget);
      }
      if !loaded.value.root.Obj? {
        return Err(Unresolvable);
      }
      var fits := Structure.ValidateStructure(loaded.value.root);
      if !fits {
        assert BadDocument(env, uri);
        return Err(OverBudget);
      }
      cache := cache[uri := loaded.value.root];
      r := Ok(loaded.value.root);
    }

    /** Ends on every document graph, cyclic ones too: each call is one level deeper. */
    method Visit(v: Json, uri: string, stack: set<string>, depth: nat) returns (r: Outcome)
      requires Valid()
      modifies this
      ensures Valid() && Extends(old(cache), cache) && Counted(r.Ok?, documents - old(documents), |cache| - |old(cache)|)
      ensures Faithful(env, cache, v, uri, stack, r)
      ensures Frugal(cache, v, CostOf(env, v, uri, Room(depth)), Meter(old(nodes), old(refs)), Meter(nodes, refs), r,
                     Overloaded(env, documents, bytes))
      ensures r.Ok? ==> depth <= MAX_DEPTH && old(nodes) < nodes <= MAX_NODES && old(refs) <= refs
      ensures r.Ok? && old(refs) <= MAX_REFS ==> refs <= MAX_REFS
      decreases MAX_DEPTH + 1 - depth, 2
    {
      hide Faithful, Frugal, Overloaded, CostOf, CostItems, CostFields, RefOf, Library;
      ghost var before := Meter(nodes, refs);
      FaithfulBudget(env, v, uri, stack);
      if depth > MAX_DEPTH {
        FrugalTooDeep(env, cache, v, uri, before);
        return Err(OverBudget);
      }
      nodes := nodes + 1;
      if nodes > MAX_NODES {
        FrugalTooMany(env, cache, v, uri, Room(depth), before, Meter(nodes, refs), Overloaded(env, documents, bytes));
        return Err(OverBudget);
      }
      NodeCost(env, v, uri, Room(depth));
      match v
      case Arr(items) =>
        r := VisitItems(items, uri, stack, depth);
        FrugalNode(env, cache, v, CostItems(env, items, uri, Room(depth + 1)), before, Meter(nodes, refs), r,
                   Overloaded(env, documents, bytes));
      case Obj(fields) =>
        if RefOf(fields).Some? {
          r := VisitReference(fields, uri, stack, depth);
        } else {
          r := VisitFields(fields, uri, stack, depth);
          FrugalNode(env, cache, v, CostFields(env, fields, uri, Room(depth + 1)), before, Meter(nodes, refs), r,
                     Overloaded(env, documents, bytes));
        }
      case _ =>
        FaithfulAtom(env, cache, v, uri, stack);
        FrugalAtom(cache, v, before, Overloaded(env, documents, bytes));
        r := Ok(v);
    }

    method VisitItems(items: seq<Json>, uri: string, stack: set<string>, depth: nat) returns (r: Outcome)
      requires Valid() && depth <= MAX_DEPTH && nodes <= MAX_NODES
      modifies this
      ensures Valid() && Extends(old(cache), cache) && Counted(r.Ok?, documents - old(documents), |cache| - |old(cache)|)
      ensures Faithful(env, cache, Arr(items), uri, stack, r)
      ensures Frugal(cache, Arr(items), CostItems(env, items, uri, Room(depth + 1)), Meter(old(nodes), old(refs)),
                     Meter(nodes, refs), r, Overloaded(env, documents, bytes))
      ensures r.Ok? ==> old(nodes) <= nodes <= MAX_NODES && old(refs) <= refs
      ensures r.Ok? && old(refs) <= MAX_REFS ==> refs <= MAX_REFS
      decreases MAX_DEPTH + 1 - depth, 0
    {
      hide Faithful, ItemsDone, Frugal, Overloaded, CostOf, CostItems, Room;
      ghost var room, start := Room(depth + 1), Meter(nodes, refs);
      FrugalNothing(cache, env, items, [], uri, room, start);
      var out := [];
      NoItemsDone(env, cache, items, uri);
      for n := 0 to |items|
        invariant Valid() && Extends(old(cache), cache) && Counted(true, documents - old(documents), |cache| - |old(cache)|)
        invariant old(nodes) <= nodes <= MAX_NODES && old(refs) <= refs
        invariant old(refs) <= MAX_REFS ==> refs <= MAX_REFS
        invariant ItemsDone(env, cache, items, n, uri, out)
        invariant Frugal(cache, Arr(items), CostItems(env, items[..n], uri, room), start, Meter(nodes, refs), Ok(Null), false)
      {
        ghost var before, between := cache, Meter(nodes, refs);
        r := Visit(items[n], uri, stack, depth + 1);
        FrugalItem(env, before, cache, items, n, uri, room, start, between, Meter(nodes, refs), r, Overloaded(env, documents, bytes));
        FaithfulItem(env, before, cache, items, n, uri, stack, out, r);
        if r.Err? {
          return;
        }
        out := out + [r.value];
      }
      FaithfulItems(env, cache, items, uri, stack, out);
      assert items[..|items|] == items;
      r := Ok(Arr(out));
      FrugalDone(cache, Arr(items), CostItems(env, items, uri, room), start, Meter(nodes, refs), r, Overloaded(env, documents, bytes));
    }

    method VisitFields(fields: seq<Field>, uri: string, stack: set<string>, depth: nat) returns (r: Outcome)
      requires Valid() && depth <= MAX_DEPTH && nodes <= MAX_NODES && RefOf(fields).None?
      modifies this
      ensures Valid() && Extends(old(cache), cache) && Counted(r.Ok?, documents - old(documents), |cache| - |old(cache)|)
      ensures Faithful(env, cache, Obj(fields), uri, stack, r)
      ensures Frugal(cache, Obj(fields), CostFields(env, fields, uri, Room(depth + 1)), Meter(old(nodes), old(refs)),
                     Meter(nodes, refs), r, Overloaded(env, documents, bytes))
      ensures r.Ok? ==> old(nodes) <= nodes <= MAX_NODES && old(refs) <= refs
      ensures r.Ok? && old(refs) <= MAX_REFS ==> refs <= MAX_REFS
      decreases MAX_DEPTH + 1 - depth, 0
    {
      hide Faithful, FieldsDone, Frugal, Overloaded, CostOf, CostFields, Room;
      ghost var room, start := Room(depth + 1), Meter(nodes, refs);
      FrugalNothing(cache, env, [], fields, uri, room, start);
      var out := [];
      NoFieldsDone(env, cache, fields, uri);
      for n := 0 to |fields|
        invariant Valid() && Extends(old(cache), cache) && Counted(true, documents - old(documents), |cache| - |old(cache)|)
        invariant old(nodes) <= nodes <= MAX_NODES && old(refs) <= refs
        invariant old(refs) <= MAX_REFS ==> refs <= MAX_REFS
        invariant FieldsDone(env, cache, fields, n, uri, out)
        invariant Frugal(cache, Obj(fields), CostFields(env, fields[..n], uri, room), start, Meter(nodes, refs), Ok(Null), false)
      {
        ghost var before, between := cache, Meter(nodes, refs);
        r := Visit(fields[n].value, uri, stack, depth + 1);
        FrugalField(env, before, cache, fields, n, uri, room, start, between, Meter(nodes, refs), r, Overloaded(env, documents, bytes));
        FaithfulField(env, before, cache, fields, n, uri, stack, out, r);
        if r.Err? {
          return;
        }
        out := out + [Field(fields[n].key, r.value)];
      }
      FaithfulFields(env, cache, fields, uri, stack, out);
      assert fields[..|fields|] == fields;
      r := Ok(Obj(out));
      FrugalDone(cache, Obj(fields), CostFields(env, fields, uri, room), start, Meter(nodes, refs), r, Overloaded(env, documents, bytes));
    }

    /** Called after the value itself was counted. */
    method VisitReference(fields: seq<Field>, uri: string, stack: set<string>, depth: nat) returns (r: Outcome)
      requires Valid() && depth <= MAX_DEPTH && 0 < nodes <= MAX_NODES && RefOf(fields).Some?
      modifies this
      ensures Valid() && Extends(old(cache), cache) && Counted(r.Ok?, documents - old(documents), |cache| - |old(cache)|)
      ensures Faithful(env, cache, Obj(fields), uri, stack, r)
      ensures Frugal(cache, Obj(fields), CostOf(env, Obj(fields), uri, Room(depth)), Meter(old(nodes) - 1, old(refs)),
                     Meter(nodes, refs), r, Overloaded(env, documents, bytes))
      ensures r.Ok? ==> old(nodes) <= nodes <= MAX_NODES && old(refs) < refs <= MAX_REFS
      decreases MAX_DEPTH + 1 - depth, 1
    {
      hide Faithful, Frugal, Overloaded, CostOf, RefOf, TargetOf, PointerValue, Identity;
      ghost var room, start := Room(depth + 1), Meter(nodes - 1, refs);
      assert Room(depth) == room + 1;
      FaithfulBudget(env, Obj(fields), uri, stack);
      var t := TargetOf(env, RefOf(fields).value, uri);
      refs := refs + 1;
      if refs > MAX_REFS {
        FrugalTooManyRefs(env, cache, fields, uri, room, t, start, Meter(nodes, refs), Overloaded(env, documents, bytes));
        return Err(OverBudget);
      }
      var id := Identity(t);
      if id in stack {
        FaithfulCycle(env, cache, fields, uri, stack, t);
        r := Err(Cyclic(id));
        FrugalOther(cache, Obj(fields), CostOf(env, Obj(fields), uri, room + 1), start, Meter(nodes, refs), r,
                    Overloaded(env, documents, bytes));
        return;
      }
      var document := Load(t.uri);
      if document.Err? {
        if document.error == Unresolvable {
          FaithfulNowhere(env, cache, fields, uri, stack, t);
        }
        FrugalOther(cache, Obj(fields), CostOf(env, Obj(fields), uri, room + 1), start, Meter(nodes, refs), document,
                    Overloaded(env, documents, bytes));
        return document;
      }
      var target := PointerValue(env, document.value, t.fragment);
      if target.None? {
        FaithfulNowhere(env, cache, fields, uri, stack, t);
        r := Err(Unresolvable);
        FrugalOther(cache, Obj(fields), CostOf(env, Obj(fields), uri, room + 1), start, Meter(nodes, refs), r,
                    Overloaded(env, documents, bytes));
        return;
      }
      r := VisitTarget(fields, uri, stack, depth, t, target.value);
    }

    /** Follows a reference and then visits what stands beside it together with the result. */
    method VisitTarget(fields: seq<Field>, uri: string, stack: set<string>, depth: nat, t: Target, target: Json) returns (r: Outcome)
      requires Valid() && depth <= MAX_DEPTH && 0 < nodes <= MAX_NODES && 0 < refs <= MAX_REFS && RefOf(fields).Some?
      requires t == TargetOf(env, RefOf(fields).value, uri) && AtHand(env, cache, t) && Resolve(env, t) == Some(target)
      modifies this
      ensures Valid() && Extends(old(cache), cache) && Counted(r.Ok?, documents - old(documents), |cache| - |old(cache)|)
      ensures Faithful(env, cache, Obj(fields), uri, stack, r)
      ensures Frugal(cache, Obj(fields), CostOf(env, Obj(fields), uri, Room(depth)), Meter(old(nodes) - 1, old(refs) - 1),
                     Meter(nodes, refs), r, Overloaded(env, documents, bytes))
      ensures r.Ok? ==> old(nodes) <= nodes <= MAX_NODES && old(refs) <= refs <= MAX_REFS
      decreases MAX_DEPTH + 1 - depth, 0
    {
      hide Faithful, Frugal, Overloaded, CostOf, Siblings, Combine, RefOf, TargetOf, Resolve;
      ghost var room, start := Room(depth + 1), Meter(nodes - 1, refs - 1);
      assert Room(depth) == room + 1;
      var id := Identity(t);
      var resolved := Visit(target, t.uri, stack + {id}, depth + 1);
      if resolved.Err? {
        FaithfulBrokenTarget(env, cache, fields, uri, stack, t, resolved);
        FrugalBrokenTarget(env, cache, fields, uri, room, t, start, Meter(nodes, refs), resolved, Overloaded(env, documents, bytes));
        return resolved;
      }
      ghost var before, between := cache, Meter(nodes, refs);
      FrugalDone(before, target, CostOf(env, target, t.uri, room), Meter(start.nodes + 1, start.refs + 1), between, resolved, false);
      if Siblings(fields) == [] {
        r := resolved;
      } else {
        r := Visit(Combine(resolved.value, Siblings(fields)), uri, stack, depth + 1);
      }
      FrugalReference(env, before, cache, fields, uri, stack + {id}, room, t, resolved.value, start, between, Meter(nodes, refs), r,
                      Overloaded(env, documents, bytes));
      FaithfulLater(env, before, cache, target, t.uri, stack + {id}, resolved);
      FaithfulReference(env, cache, fields, uri, stack, t, resolved.value, r);
    }
  }

  lemma FrugalTooDeep(env: Env, docs: map<string, Json>, v: Json, uri: string, before: Meter)
    ensures forall overloaded: bool :: Frugal(docs, v, CostOf(env, v, uri, 0), before, before, Err(OverBudget), overloaded)
  {}

  /** Every value costs at least itself. */
  lemma CostsItself(env: Env, v: Json, uri: string, room: nat)
    ensures CostOf(env, v, uri, room).Some? ==> CostOf(env, v, uri, room).value.nodes >= 1
  {
    hide CostItems, CostFields, Means, Combine, Resolve, TargetOf, RefOf, Siblings;
  }

  lemma FrugalTooMany(
      env: Env, docs: map<string, Json>, v: Json, uri: string, room: nat, before: Meter, after: Meter, overloaded: bool)
    requires before.nodes + 1 > MAX_NODES
    ensures Frugal(docs, v, CostOf(env, v, uri, room), before, after, Err(OverBudget), overloaded)
  {
    CostsItself(env, v, uri, room);
    hide CostOf;
  }

  lemma FrugalTooManyRefs(
      env: Env, docs: map<string, Json>, fields: seq<Field>, uri: string, room: nat, t: Target, before: Meter, after: Meter,
      overloaded: bool)
    requires RefOf(fields).Some? && t == TargetOf(env, RefOf(fields).value, uri) && before.refs + 1 > MAX_REFS
    ensures Frugal(docs, Obj(fields), CostOf(env, Obj(fields), uri, room + 1), before, after, Err(OverBudget), overloaded)
  {
    ReferenceCostsTarget(env, fields, uri, room, t, before);
    hide CostOf;
  }

  lemma NodeCost(env: Env, v: Json, uri: string, room: nat)
    requires room > 0
    ensures v.Arr? ==> CostOf(env, v, uri, room) == Plus(NODE, CostItems(env, v.items, uri, room - 1))
    ensures v.Obj? && RefOf(v.fields).None? ==> CostOf(env, v, uri, room) == Plus(NODE, CostFields(env, v.fields, uri, room - 1))
    ensures !v.Arr? && !v.Obj? ==> CostOf(env, v, uri, room) == NODE
  {}

  lemma FrugalAtom(docs: map<string, Json>, v: Json, before: Meter, overloaded: bool)
    ensures Frugal(docs, v, NODE, before, Meter(before.nodes + 1, before.refs), Ok(v), overloaded)
  {}

  lemma FrugalDone(docs: map<string, Json>, v: Json, cost: Option<Cost>, before: Meter, after: Meter, r: Outcome, overloaded: bool)
    requires r.Ok? && exists other: Outcome, o: bool :: other.Ok? && Frugal(docs, v, cost, before, after, other, o)
    ensures Frugal(docs, v, cost, before, after, r, overloaded)
  {}

  lemma FaithfulBudget(env: Env, v: Json, uri: string, stack: set<string>)
    ensures forall docs :: Faithful(env, docs, v, uri, stack, Err(OverBudget))
  {}

  lemma NoItemsDone(env: Env, docs: map<string, Json>, items: seq<Json>, uri: string)
    ensures ItemsDone(env, docs, items, 0, uri, [])
  {
    assert ExpandItems(env, items[..0], uri, 0) == Some([]);
  }

  lemma NoFieldsDone(env: Env, docs: map<string, Json>, fields: seq<Field>, uri: string)
    ensures FieldsDone(env, docs, fields, 0, uri, [])
  {
    assert ExpandFields(env, fields[..0], uri, 0) == Some([]);
  }

  /**
   * Dereferencing a whole document. If the documents used are clean, success means the recursive
   * substitution and no `$ref` left; a failure over a limit means that the cost of the document does not
   * fit, or that too much had to be loaded; any other failure, that there is no finite substitution, or one
   * that is no object.
   */
  method DereferenceDocument(env: Env, root: Json, mainUri: string, documents: nat, bytes: nat)
    returns (r: Outcome, ghost used: map<string, Json>, ghost loaded: nat, ghost size: nat)
    ensures forall u :: u in used ==> Library(env, u) == Some(used[u])
    ensures loaded - documents <= |used| - |env.given| + 1
    ensures CleanDocs(used) && Clean(root) && r.Ok? ==> Means(env, root, mainUri, r.value) && RefFree(r.value) && r.value.Obj?
    ensures CleanDocs(used) && Clean(root) && r == Err(OverBudget) ==>
              || Exceeds(CostOf(env, root, mainUri, MAX_DEPTH + 1), Meter(0, 0))
              || Overloaded(env, loaded, size)
    ensures CleanDocs(used) && Clean(root) && HashFree(env) && '#' !in mainUri && r.Err? && r.error != OverBudget ==>
              forall any :: Means(env, root, mainUri, any) ==> r.error == NotAnObject && !any.Obj?
  {
    var traversal := new Dereferencer(env, documents, bytes);
    r := traversal.Visit(root, mainUri, {}, 0);
    used, loaded, size := traversal.cache, traversal.documents, traversal.bytes;
    FaithfulFromEmpty(env, used, root, mainUri, r);
    if r.Ok? && !r.value.Obj? {
      forall any | CleanDocs(used) && Clean(root) && Means(env, root, mainUri, any) ensures !any.Obj? {
        MeaningUnique(env, root, mainUri, any, r.value);
      }
      r := Err(NotAnObject);
    }
  }

  lemma FaithfulFromEmpty(env: Env, docs: map<string, Json>, root: Json, uri: string, r: Outcome)
    requires Faithful(env, docs, root, uri, {}, r)
    ensures CleanDocs(docs) && Clean(root) && HashFree(env) && '#' !in uri && r.Err? && r.error != OverBudget ==>
              forall any :: !Means(env, root, uri, any)
  {
    if CleanDocs(docs) && Clean(root) && HashFree(env) && '#' !in uri && r.Err? && r.error != OverBudget {
      forall any ensures !Means(env, root, uri, any) {
        assert forall f: nat :: Expand(env, root, uri, f).Some? == Expands(env, root, uri)(f);
      }
    }
  }
}
