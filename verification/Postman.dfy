/** Importing a Postman collection: an explicit stack that visits folders in recursive pre-order. */
module Postman {
  import opened Base
  import opened Json
  import opened Limits

  function Member(fields: seq<Field>, key: string): Json {
    if Has(fields, key) then Get(fields, key) else Null
  }

  predicate Truthy(v: Json) {
    match v
    case Null => false
    case Bool(b) => b
    case Num(n) => n != 0
    case Str(s) => s != ""
    case _ => true
  }

  predicate HasRequest(item: Json) {
    item.Obj? && Truthy(Member(item.fields, "request"))
  }

  /** What the importer throws on: items that are no objects, requests and bodies of the wrong kind. */
  predicate WellFormed(item: Json) {
    && item.Obj?
    && var request := Member(item.fields, "request");
       Truthy(request) ==> request.Str? || (request.Obj? && !Member(request.fields, "body").Arr?)
  }

  /** The folder's own items. */
  function Inner(item: Json): (r: seq<Json>)
    ensures r != [] ==> item.Obj? && exists i :: 0 <= i < |item.fields| && item.fields[i].value == Arr(r)
  {
    if item.Obj? && Has(item.fields, "item") && Get(item.fields, "item").Arr? then
      var v := Get(item.fields, "item");
      assert exists i :: 0 <= i < |item.fields| && item.fields[i].value == Arr(v.items) by {
        var i :| 0 <= i < |item.fields| && item.fields[i] == Field("item", v);
        assert item.fields[i].value == Arr(v.items);
      }
      v.items
    else []
  }

  /** The name under which a folder's items are filed; `text` is the language's string conversion. */
  function FolderName(text: Json -> string, item: Json): string {
    if item.Obj? && !Member(item.fields, "name").Null? then text(Member(item.fields, "name")) else "Folder"
  }

  // ----- the recursive order -----

  datatype Visit = Visit(item: Json, path: seq<string>, depth: nat)

  /** An item and then everything inside it, each with the folders above it. */
  function Outline(text: Json -> string, v: Visit): seq<Visit>
    decreases v.item, 1
  {
    var inner := Inner(v.item);
    if inner == [] then [v]
    else
      assert Arr(inner) < v.item by {
        var i :| 0 <= i < |v.item.fields| && v.item.fields[i].value == Arr(inner);
        assert Arr(inner) < v.item.fields[i];
      }
      [v] + OutlineAll(text, inner, v.path + [FolderName(text, v.item)], v.depth + 1)
  }

  /** Items of one folder, in order. */
  function OutlineAll(text: Json -> string, items: seq<Json>, path: seq<string>, depth: nat): seq<Visit>
    decreases items, 0
  {
    if items == [] then []
    else Outline(text, Visit(items[0], path, depth)) + OutlineAll(text, items[1..], path, depth)
  }

  /** The imported requests: the item they are read from and the folders it is filed under. */
  datatype Imported = Imported(item: Json, path: seq<string>)

  function Requests(visits: seq<Visit>): seq<Imported> {
    if visits == [] then []
    else
      var front := Requests(visits[..|visits| - 1]);
      var last := visits[|visits| - 1];
      if HasRequest(last.item) then front + [Imported(last.item, last.path)] else front
  }

  predicate Importable(visits: seq<Visit>) {
    && |visits| <= MAX_NODES
    && |Requests(visits)| <= MAX_REQUESTS
    && forall i :: 0 <= i < |visits| ==> visits[i].depth <= MAX_DEPTH && WellFormed(visits[i].item)
  }

  // ----- the explicit stack -----

  /** What a stack still has to visit, from its top. */
  function StackOutline(text: Json -> string, stack: seq<Visit>): seq<Visit> {
    if stack == [] then []
    else Outline(text, stack[|stack| - 1]) + StackOutline(text, stack[..|stack| - 1])
  }

  function Pushed(items: seq<Json>, path: seq<string>, depth: nat): seq<Visit> {
    if items == [] then [] else Pushed(items[1..], path, depth) + [Visit(items[0], path, depth)]
  }

  lemma StackPush(text: Json -> string, stack: seq<Visit>, top: Visit)
    ensures StackOutline(text, stack + [top]) == Outline(text, top) + StackOutline(text, stack)
  {
    hide Outline;
    var all := stack + [top];
    assert all[..|all| - 1] == stack;
  }

  lemma {:induction false} StackPushed(text: Json -> string, stack: seq<Visit>, items: seq<Json>, path: seq<string>, depth: nat)
    ensures StackOutline(text, stack + Pushed(items, path, depth)) == OutlineAll(text, items, path, depth) + StackOutline(text, stack)
    decreases |items|
  {
    hide Outline, StackOutline;
    if items == [] {
      assert stack + Pushed(items, path, depth) == stack;
      assert [] + StackOutline(text, stack) == StackOutline(text, stack);
    } else {
      var first := Visit(items[0], path, depth);
      var rest := Pushed(items[1..], path, depth);
      StackPushed(text, stack, items[1..], path, depth);
      StackPush(text, stack + rest, first);
      assert stack + (rest + [first]) == (stack + rest) + [first];
      Associate(Outline(text, first), OutlineAll(text, items[1..], path, depth), StackOutline(text, stack));
    }
  }

  lemma Associate(a: seq<Visit>, b: seq<Visit>, c: seq<Visit>)
    ensures a + (b + c) == (a + b) + c
  {}

  lemma OutlineUnfold(text: Json -> string, v: Visit)
    ensures Outline(text, v) == [v] + OutlineAll(text, Inner(v.item), v.path + [FolderName(text, v.item)], v.depth + 1)
  {
    if Inner(v.item) == [] {
      assert [v] + [] == [v];
    }
  }

  /** Popping an item and pushing its own items visits the item first and leaves the rest in order. */
  lemma PopStep(text: Json -> string, rest: seq<Visit>, v: Visit)
    ensures StackOutline(text, rest + [v]) ==
            [v] + StackOutline(text, rest + Pushed(Inner(v.item), v.path + [FolderName(text, v.item)], v.depth + 1))
  {
    var path := v.path + [FolderName(text, v.item)];
    var inner := Inner(v.item);
    StackPush(text, rest, v);
    OutlineUnfold(text, v);
    StackPushed(text, rest, inner, path, v.depth + 1);
    hide Outline, OutlineAll, StackOutline, Pushed, Inner;
    Associate([v], OutlineAll(text, inner, path, v.depth + 1), StackOutline(text, rest));
  }

  lemma {:induction false} RequestsPrefix(visits: seq<Visit>, n: nat)
    requires n <= |visits|
    ensures |Requests(visits[..n])| <= |Requests(visits)|
    decreases |visits|
  {
    if n == |visits| {
      assert visits[..n] == visits;
    } else {
      var m := |visits| - 1;
      RequestsPrefix(visits[..m], n);
      assert visits[..m][..n] == visits[..n];
    }
  }

  lemma RequestsSnoc(visits: seq<Visit>, v: Visit)
    ensures Requests(visits + [v]) ==
            if HasRequest(v.item) then Requests(visits) + [Imported(v.item, v.path)] else Requests(visits)
  {
    var all := visits + [v];
    assert all[..|all| - 1] == visits;
  }

  /** A visit that breaks a limit or the form spoils the whole import, whatever comes after it. */
  lemma SpoiltBy(done: seq<Visit>, v: Visit, rest: seq<Visit>)
    requires |done| >= MAX_NODES || v.depth > MAX_DEPTH || !WellFormed(v.item) || |Requests(done + [v])| > MAX_REQUESTS
    ensures !Importable(done + ([v] + rest))
  {
    hide WellFormed, Requests;
    var all := done + ([v] + rest);
    assert all[|done|] == v;
    if |Requests(done + [v])| > MAX_REQUESTS {
      assert all[..|done| + 1] == done + [v];
      RequestsPrefix(all, |done| + 1);
    }
  }

  ghost predicate GoodSoFar(done: seq<Visit>, requests: seq<Imported>) {
    && |done| <= MAX_NODES && requests == Requests(done) && |requests| <= MAX_REQUESTS
    && forall i :: 0 <= i < |done| ==> done[i].depth <= MAX_DEPTH && WellFormed(done[i].item)
  }

  function After(text: Json -> string, rest: seq<Visit>, v: Visit): seq<Visit> {
    rest + Pushed(Inner(v.item), v.path + [FolderName(text, v.item)], v.depth + 1)
  }

  /** One turn of the loop, seen from the outline. */
  lemma Turn(text: Json -> string, outline: seq<Visit>, done: seq<Visit>, stack: seq<Visit>)
    requires stack != [] && outline == done + StackOutline(text, stack)
    ensures var rest, v := stack[..|stack| - 1], stack[|stack| - 1];
            && outline == done + ([v] + StackOutline(text, After(text, rest, v)))
            && outline == (done + [v]) + StackOutline(text, After(text, rest, v))
  {
    hide StackOutline, After;
    var rest, v := stack[..|stack| - 1], stack[|stack| - 1];
    assert stack == rest + [v];
    PopAfter(text, rest, v);
    Associate(done, [v], StackOutline(text, After(text, rest, v)));
  }

  lemma PopAfter(text: Json -> string, rest: seq<Visit>, v: Visit)
    ensures StackOutline(text, rest + [v]) == [v] + StackOutline(text, After(text, rest, v))
  {
    PopStep(text, rest, v);
    hide StackOutline, Pushed, Inner, FolderName;
  }

  lemma GoodStep(done: seq<Visit>, requests: seq<Imported>, v: Visit)
    requires GoodSoFar(done, requests) && v.depth <= MAX_DEPTH && |done| < MAX_NODES && WellFormed(v.item)
    ensures var more := if HasRequest(v.item) then requests + [Imported(v.item, v.path)] else requests;
            if |more| <= MAX_REQUESTS then GoodSoFar(done + [v], more) else |Requests(done + [v])| > MAX_REQUESTS
  {
    hide WellFormed;
    RequestsSnoc(done, v);
  }

  lemma AllGood(done: seq<Visit>, requests: seq<Imported>)
    requires GoodSoFar(done, requests)
    ensures Importable(done)
  {}

  lemma GoodNone()
    ensures GoodSoFar([], [])
  {}

  /** Yields the requests in recursive pre-order with the path of their folders, or throws. */
  method ImportPostman(text: Json -> string, rootItems: seq<Json>) returns (r: Option<seq<Imported>>)
    ensures r.Some? <==> Importable(OutlineAll(text, rootItems, [], 0))
    ensures r.Some? ==> r.value == Requests(OutlineAll(text, rootItems, [], 0))
  {
    hide Importable, Requests;
    var stack := PushItems([], rootItems, [], 0);
    StackPushed(text, [], rootItems, [], 0);
    assert OutlineAll(text, rootItems, [], 0) + [] == OutlineAll(text, rootItems, [], 0);
    assert StackOutline(text, []) == [];
    r := Drain(text, stack);
  }

  method Drain(text: Json -> string, start: seq<Visit>) returns (r: Option<seq<Imported>>)
    ensures r.Some? <==> Importable(StackOutline(text, start))
    ensures r.Some? ==> r.value == Requests(StackOutline(text, start))
  {
    ghost var outline := StackOutline(text, start);
    ghost var done: seq<Visit> := [];
    var nodes, requests, stack := 0, [], start;
    assert outline == [] + outline;
    assert StackOutline(text, []) == [];
    GoodNone();
    hide Outline, StackOutline, Importable, WellFormed, HasRequest, After;
    while stack != []
      invariant outline == done + StackOutline(text, stack)
      invariant nodes == |done| && GoodSoFar(done, requests)
      decreases |outline| - |done|
    {
      var rest, current := stack[..|stack| - 1], stack[|stack| - 1];
      ghost var left := StackOutline(text, After(text, rest, current));
      Turn(text, outline, done, stack);
      if current.depth > MAX_DEPTH || nodes + 1 > MAX_NODES || !WellFormed(current.item) {
        SpoiltBy(done, current, left);
        return None;
      }
      GoodStep(done, requests, current);
      nodes := nodes + 1;
      if HasRequest(current.item) {
        requests := requests + [Imported(current.item, current.path)];
        if |requests| > MAX_REQUESTS {
          SpoiltBy(done, current, left);
          return None;
        }
      }
      done := done + [current];
      stack := PushInner(text, rest, current);
    }
    AllGood(done, requests);
    assert done + [] == done;
    r := Some(requests);
  }

  method PushInner(text: Json -> string, rest: seq<Visit>, v: Visit) returns (r: seq<Visit>)
    ensures r == After(text, rest, v)
  {
    r := PushItems(rest, Inner(v.item), v.path + [FolderName(text, v.item)], v.depth + 1);
  }

  /** Last item first, so that the first one ends on top. */
  method PushItems(stack: seq<Visit>, items: seq<Json>, path: seq<string>, depth: nat) returns (r: seq<Visit>)
    ensures r == stack + Pushed(items, path, depth)
  {
    r := stack;
    var index := |items|;
    assert items[index..] == [];
    while index > 0
      invariant 0 <= index <= |items| && r == stack + Pushed(items[index..], path, depth)
    {
      index := index - 1;
      assert items[index..][1..] == items[index + 1..];
      r := r + [Visit(items[index], path, depth)];
    }
    assert items[0..] == items;
  }

  // ----- what is read off an item -----

  lemma MemberIs(fields: seq<Field>, i: nat)
    requires UniqueKeys(fields) && i < |fields|
    ensures Member(fields, fields[i].key) == fields[i].value
  {
    GetUnique(fields, i);
  }

  /** An item is a request if it has a `request` that is neither missing nor null, false, zero or empty. */
  lemma RequestItems(fields: seq<Field>, i: nat)
    requires UniqueKeys(fields)
    ensures i < |fields| && fields[i].key == "request" ==>
              (HasRequest(Obj(fields)) <==> fields[i].value !in {Null, Bool(false), Num(0), Str("")})
    ensures !Has(fields, "request") ==> !HasRequest(Obj(fields))
  {
    if i < |fields| {
      MemberIs(fields, i);
    }
  }

  /** The items of a folder are those of its `item` array, and its name is its `name` unless that is missing. */
  lemma FolderItems(text: Json -> string, fields: seq<Field>, i: nat)
    requires UniqueKeys(fields)
    ensures i < |fields| && fields[i].key == "item" ==>
              Inner(Obj(fields)) == if fields[i].value.Arr? then fields[i].value.items else []
    ensures i < |fields| && fields[i].key == "name" ==>
              FolderName(text, Obj(fields)) == if fields[i].value.Null? then "Folder" else text(fields[i].value)
    ensures !Has(fields, "item") ==> Inner(Obj(fields)) == []
    ensures !Has(fields, "name") ==> FolderName(text, Obj(fields)) == "Folder"
  {
    if i < |fields| {
      MemberIs(fields, i);
      GetUnique(fields, i);
    }
  }

  /** Which items are refused: those that are no objects, and those whose request or body is of the wrong kind. */
  lemma RefusedItems(item: Json, fields: seq<Field>, i: nat)
    requires UniqueKeys(fields)
    ensures !item.Obj? ==> !WellFormed(item)
    ensures i < |fields| && fields[i].key == "request" ==>
              (WellFormed(Obj(fields)) <==>
                 || fields[i].value in {Null, Bool(false), Num(0)}
                 || fields[i].value.Str?
                 || (fields[i].value.Obj? && !Member(fields[i].value.fields, "body").Arr?))
    ensures !Has(fields, "request") ==> WellFormed(Obj(fields))
  {
    if i < |fields| {
      MemberIs(fields, i);
    }
  }

  /** Every item is filed under one folder per level above it, the outermost first. */
  lemma {:induction false} PathsMatchDepth(text: Json -> string, v: Visit, w: Visit)
    requires w in Outline(text, v)
    ensures v.path <= w.path && |w.path| - |v.path| == w.depth - v.depth
    decreases v.item, 1
  {
    OutlineUnfold(text, v);
    if w != v {
      var inner := Inner(v.item);
      var path := v.path + [FolderName(text, v.item)];
      assert w in OutlineAll(text, inner, path, v.depth + 1);
      assert inner != [] by {
        OutlineNone(text, path, v.depth + 1, inner, w);
      }
      assert Arr(inner) < v.item by {
        var i :| 0 <= i < |v.item.fields| && v.item.fields[i].value == Arr(inner);
        assert Arr(inner) < v.item.fields[i];
      }
      PathsMatchAll(text, inner, path, v.depth + 1, w);
    }
  }

  lemma OutlineNone(text: Json -> string, path: seq<string>, depth: nat, items: seq<Json>, w: Visit)
    requires w in OutlineAll(text, items, path, depth)
    ensures items != []
  {}

  lemma {:induction false} PathsMatchAll(text: Json -> string, items: seq<Json>, path: seq<string>, depth: nat, w: Visit)
    requires w in OutlineAll(text, items, path, depth)
    ensures path <= w.path && |w.path| - |path| == w.depth - depth
    decreases items, 0
  {
    var first := Visit(items[0], path, depth);
    if w in Outline(text, first) {
      PathsMatchDepth(text, first, w);
    } else {
      PathsMatchAll(text, items[1..], path, depth, w);
    }
  }
}
