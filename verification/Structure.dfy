/**
 * The structural limits on imported documents: an explicit stack instead of recursion, proved to
 * accept exactly the trees the recursive counts allow.
 */
module Structure {
  import opened Base
  import opened Json
  import opened Limits

  function Children(v: Json): seq<Json> {
    match v
    case Arr(items) => items
    case Obj(fields) => Values(fields)
    case _ => []
  }

  function Values(fields: seq<Field>): seq<Json> {
    seq(|fields|, i requires 0 <= i < |fields| => fields[i].value)
  }

  /** How many values the tree is made of. */
  function NodeCount(v: Json): nat
    decreases v, 1
  {
    match v
    case Arr(items) => 1 + CountItems(items)
    case Obj(fields) => 1 + CountFields(fields)
    case _ => 1
  }

  function CountItems(items: seq<Json>): nat
    decreases items, 0
  {
    if items == [] then 0 else NodeCount(items[0]) + CountItems(items[1..])
  }

  function CountFields(fields: seq<Field>): nat
    decreases fields, 0
  {
    if fields == [] then 0 else NodeCount(fields[0].value) + CountFields(fields[1..])
  }

  /** Every value lies at most `room` levels below the root. */
  predicate WithinDepth(v: Json, room: int)
    decreases v
  {
    && room >= 0
    && match v
       case Arr(items) => forall i :: 0 <= i < |items| ==> WithinDepth(items[i], room - 1)
       case Obj(fields) => forall i :: 0 <= i < |fields| ==> WithinDepth(fields[i].value, room - 1)
       case _ => true
  }

  predicate ValidStructure(v: Json) {
    NodeCount(v) <= MAX_NODES && WithinDepth(v, MAX_DEPTH)
  }

  lemma {:induction false} CountFieldsIsItems(fields: seq<Field>)
    ensures CountFields(fields) == CountItems(Values(fields))
    decreases fields
  {
    if fields != [] {
      CountFieldsIsItems(fields[1..]);
      assert Values(fields)[1..] == Values(fields[1..]);
    }
  }

  lemma NodeCountIsChildren(v: Json)
    ensures NodeCount(v) == 1 + CountItems(Children(v))
  {
    if v.Obj? {
      CountFieldsIsItems(v.fields);
    }
  }

  lemma WithinDepthIsChildren(v: Json, room: int)
    ensures WithinDepth(v, room) <==>
            room >= 0 && forall i :: 0 <= i < |Children(v)| ==> WithinDepth(Children(v)[i], room - 1)
  {
    var room' := room - 1;
    if v.Arr? {
      assert Children(v) == v.items;
      if room >= 0 && forall i :: 0 <= i < |v.items| ==> WithinDepth(v.items[i], room') {
        assert WithinDepth(v, room);
      }
    } else if v.Obj? {
      var values := Values(v.fields);
      assert Children(v) == values;
      if WithinDepth(v, room) {
        forall i | 0 <= i < |values| ensures WithinDepth(values[i], room - 1) {
          assert values[i] == v.fields[i].value;
        }
      }
      if room >= 0 && forall i :: 0 <= i < |values| ==> WithinDepth(values[i], room - 1) {
        forall i | 0 <= i < |v.fields| ensures WithinDepth(v.fields[i].value, room - 1) {
          assert values[i] == v.fields[i].value;
        }
        assert WithinDepth(v, room);
      }
    }
  }

  // ----- the explicit stack -----

  datatype Entry = Entry(value: Json, depth: nat)

  function StackCount(stack: seq<Entry>): nat {
    if stack == [] then 0 else StackCount(stack[..|stack| - 1]) + NodeCount(stack[|stack| - 1].value)
  }

  predicate StackFits(stack: seq<Entry>) {
    forall i :: 0 <= i < |stack| ==> WithinDepth(stack[i].value, MAX_DEPTH - stack[i].depth)
  }

  function Pushed(values: seq<Json>, depth: nat): seq<Entry> {
    seq(|values|, i requires 0 <= i < |values| => Entry(values[i], depth))
  }

  lemma {:induction false} StackCountPushed(stack: seq<Entry>, values: seq<Json>, depth: nat)
    ensures StackCount(stack + Pushed(values, depth)) == StackCount(stack) + CountItems(values)
    decreases |values|
  {
    if values == [] {
      assert stack + Pushed(values, depth) == stack;
    } else {
      var all := stack + Pushed(values, depth);
      var front := values[..|values| - 1];
      assert all[..|all| - 1] == stack + Pushed(front, depth);
      StackCountPushed(stack, front, depth);
      CountItemsLast(values);
    }
  }

  lemma {:induction false} CountItemsLast(items: seq<Json>)
    requires items != []
    ensures CountItems(items) == CountItems(items[..|items| - 1]) + NodeCount(items[|items| - 1])
    decreases |items|
  {
    if |items| > 1 {
      CountItemsLast(items[1..]);
      assert items[1..][..|items| - 2] == items[..|items| - 1][1..];
    } else {
      assert items[..0] == [] && items[1..] == [];
    }
  }

  /** Rejects exactly when the tree has more than 100000 nodes or a node deeper than 128. */
  method ValidateStructure(root: Json) returns (accepted: bool)
    ensures accepted <==> ValidStructure(root)
  {
    hide WithinDepth, NodeCount, Children, StackFits, StackCount;
    var nodes := 0;
    var stack := [Entry(root, 0)];
    OneEntry(root);
    NoEntry();
    while stack != []
      invariant nodes + StackCount(stack) == NodeCount(root)
      invariant nodes <= MAX_NODES
      invariant StackFits(stack) <==> WithinDepth(root, MAX_DEPTH)
      decreases StackCount(stack)
    {
      var current := stack[|stack| - 1];
      var rest := stack[..|stack| - 1];
      assert stack == rest + [current];
      PopCounts(rest, current);
      PopFits(rest, current);
      if current.depth > MAX_DEPTH {
        return false;
      }
      nodes := nodes + 1;
      if nodes > MAX_NODES {
        return false;
      }
      stack := rest + Pushed(Children(current.value), current.depth + 1);
    }
    accepted := true;
  }

  lemma OneEntry(root: Json)
    ensures StackCount([Entry(root, 0)]) == NodeCount(root)
    ensures StackFits([Entry(root, 0)]) <==> WithinDepth(root, MAX_DEPTH)
  {
    hide NodeCount, WithinDepth;
    assert [Entry(root, 0)][..0] == [];
    assert [Entry(root, 0)][0] == Entry(root, 0);
  }

  lemma NoEntry()
    ensures StackCount([]) == 0 && StackFits([])
  {}

  lemma PopCounts(rest: seq<Entry>, current: Entry)
    ensures StackCount(rest + [current]) == StackCount(rest + Pushed(Children(current.value), current.depth + 1)) + 1
  {
    StackCountPushed(rest, Children(current.value), current.depth + 1);
    NodeCountIsChildren(current.value);
    hide NodeCount, Children;
    var stack := rest + [current];
    assert stack[..|stack| - 1] == rest;
  }

  lemma PopFits(rest: seq<Entry>, current: Entry)
    ensures StackFits(rest + [current]) <==>
            current.depth <= MAX_DEPTH && StackFits(rest + Pushed(Children(current.value), current.depth + 1))
  {
    WithinDepthIsChildren(current.value, MAX_DEPTH - current.depth);
    hide WithinDepth, Children;
    var children := Children(current.value);
    FitsAppend(rest, [current]);
    FitsAppend(rest, Pushed(children, current.depth + 1));
    PushedFits(children, current.depth + 1);
    assert StackFits([current]) <==> WithinDepth(current.value, MAX_DEPTH - current.depth) by {
      assert [current][0] == current;
    }
  }

  lemma FitsAppend(a: seq<Entry>, b: seq<Entry>)
    ensures StackFits(a + b) <==> StackFits(a) && StackFits(b)
  {
    hide WithinDepth;
    var s := a + b;
    if StackFits(s) {
      forall i | 0 <= i < |a| ensures WithinDepth(a[i].value, MAX_DEPTH - a[i].depth) {
        assert s[i] == a[i];
      }
      forall i | 0 <= i < |b| ensures WithinDepth(b[i].value, MAX_DEPTH - b[i].depth) {
        assert s[|a| + i] == b[i];
      }
    }
  }

  lemma PushedFits(values: seq<Json>, depth: nat)
    ensures StackFits(Pushed(values, depth)) <==> forall i :: 0 <= i < |values| ==> WithinDepth(values[i], MAX_DEPTH - depth)
  {
    hide WithinDepth;
    var p := Pushed(values, depth);
    if StackFits(p) {
      forall i | 0 <= i < |values| ensures WithinDepth(values[i], MAX_DEPTH - depth) {
        assert p[i] == Entry(values[i], depth);
      }
    }
  }
}
