/**
 * Cloning a project: a worklist creates a copy of every collection after its parent's copy, then the
 * requests are saved under the copies of their collections.
 */
module CloneProject {
  import opened Base

  type Id = nat

  /** A collection without parent has `None`, which stands for a missing or an empty parent id. */
  datatype Collection = Collection(id: Id, project: Id, parent: Option<Id>, name: string)

  datatype RequestRow = RequestRow(id: Id, project: Id, collection: Id)

  datatype Copy = Copy(project: Id, parent: Option<Id>, name: string)

  datatype Saved = Saved(envelope: nat, project: Id, collection: Id)

  // ----- what can be cloned -----

  predicate Holds(rows: seq<Collection>, id: Id) {
    exists i :: 0 <= i < |rows| && rows[i].id == id
  }

  ghost predicate UniqueIds(rows: seq<Collection>) {
    forall i, j :: 0 <= i < j < |rows| ==> rows[i].id != rows[j].id
  }

  function OfProject(rows: seq<Collection>, project: Id): (r: seq<Collection>) {
    if rows == [] then []
    else
      var front := OfProject(rows[..|rows| - 1], project);
      var last := rows[|rows| - 1];
      if last.project == project then front + [last] else front
  }

  /** Following parents from the collection, at most `steps` of them, reaches a root among the rows. */
  ghost predicate ReachesRoot(rows: seq<Collection>, id: Id, steps: nat)
    decreases steps
  {
    exists i :: 0 <= i < |rows| && rows[i].id == id &&
      (rows[i].parent.None? || (steps > 0 && ReachesRoot(rows, rows[i].parent.value, steps - 1)))
  }

  ghost predicate Grounded(rows: seq<Collection>, id: Id) {
    exists steps: nat :: ReachesRoot(rows, id, steps)
  }

  ghost predicate AllGrounded(rows: seq<Collection>) {
    forall i :: 0 <= i < |rows| ==> Grounded(rows, rows[i].id)
  }

  /** Can the row be copied now: a root, or a child of something copied? */
  predicate Ready(row: Collection, copied: map<Id, Id>) {
    row.parent.None? || row.parent.value in copied
  }

  lemma ReadyIsGrounded(rows: seq<Collection>, i: nat, copied: map<Id, Id>)
    requires i < |rows| && Ready(rows[i], copied)
    requires forall id :: id in copied ==> Grounded(rows, id)
    ensures Grounded(rows, rows[i].id)
  {
    if rows[i].parent.None? {
      assert ReachesRoot(rows, rows[i].id, 0);
    } else {
      var steps: nat :| ReachesRoot(rows, rows[i].parent.value, steps);
      assert ReachesRoot(rows, rows[i].id, steps + 1);
    }
  }

  /** When nothing that is left is ready, none of it reaches a root. */
  lemma {:induction false} StuckIsNotGrounded(
      rows: seq<Collection>, pending: seq<Collection>, copied: map<Id, Id>, k: nat, steps: nat)
    requires UniqueIds(rows) && k < |pending|
    requires forall i :: 0 <= i < |pending| ==> pending[i] in rows && !Ready(pending[i], copied)
    requires forall i :: 0 <= i < |rows| ==> rows[i].id in copied || rows[i] in pending
    ensures !ReachesRoot(rows, pending[k].id, steps)
    decreases steps
  {
    var row := pending[k];
    var at :| 0 <= at < |rows| && rows[at] == row;
    assert !Ready(pending[k], copied);
    forall i | 0 <= i < |rows| && rows[i].id == row.id
      ensures !(rows[i].parent.None? || (steps > 0 && ReachesRoot(rows, rows[i].parent.value, steps - 1)))
    {
      assert i == at;
      var parent := row.parent.value;
      if steps > 0 {
        if j :| 0 <= j < |rows| && rows[j].id == parent {
          assert rows[j] in pending;
          var m :| 0 <= m < |pending| && pending[m] == rows[j];
          StuckIsNotGrounded(rows, pending, copied, m, steps - 1);
        }
      }
    }
  }

  // ----- copies -----

  function MapParent(parent: Option<Id>, copied: map<Id, Id>): Option<Id> {
    if parent.Some? && parent.value in copied then Some(copied[parent.value]) else None
  }

  ghost predicate Injective(m: map<Id, Id>) {
    forall a, b :: a in m && b in m && m[a] == m[b] ==> a == b
  }

  /** The copy of a row: same name, in the new project, under the copy of its parent. */
  ghost predicate CopyOf(row: Collection, copied: map<Id, Id>, project: Id, world: map<Id, Copy>) {
    && row.id in copied && copied[row.id] in world
    && (row.parent.Some? ==> row.parent.value in copied)
    && world[copied[row.id]] == Copy(project, MapParent(row.parent, copied), row.name)
  }

  /** The part of `rows` that was copied so far, and nothing else, is new in `world`. */
  ghost predicate CopiedSoFar(
      rows: seq<Collection>, copied: map<Id, Id>, project: Id, before: map<Id, Copy>, world: map<Id, Copy>)
  {
    && Injective(copied)
    && (forall id :: id in copied ==> Holds(rows, id) && copied[id] !in before)
    && (forall i :: 0 <= i < |rows| && rows[i].id in copied ==> CopyOf(rows[i], copied, project, world))
    && world.Keys == before.Keys + copied.Values
    && (forall id :: id in before ==> world[id] == before[id])
  }

  lemma CopyOneMore(
      rows: seq<Collection>, i: nat, copied: map<Id, Id>, project: Id,
      before: map<Id, Copy>, world: map<Id, Copy>, id: Id)
    requires CopiedSoFar(rows, copied, project, before, world) && UniqueIds(rows)
    requires i < |rows| && rows[i].id !in copied && Ready(rows[i], copied) && id !in world
    ensures CopiedSoFar(
      rows, copied[rows[i].id := id], project, before,
      world[id := Copy(project, MapParent(rows[i].parent, copied), rows[i].name)])
  {
    var row := rows[i];
    var copied' := copied[row.id := id];
    var world' := world[id := Copy(project, MapParent(row.parent, copied), row.name)];
    assert Holds(rows, row.id);
    forall j | 0 <= j < |rows| && rows[j].id in copied' ensures CopyOf(rows[j], copied', project, world') {
      if j != i {
        assert rows[j].id != row.id;
        assert CopyOf(rows[j], copied, project, world);
        CopyKept(rows[j], copied, project, world, row.id, id, world'[id]);
      }
    }
    ValuesGrow(copied, row.id, id);
    hide CopyOf, MapParent, Holds;
  }

  lemma CopyKept(row: Collection, copied: map<Id, Id>, project: Id, world: map<Id, Copy>, other: Id, id: Id, copy: Copy)
    requires CopyOf(row, copied, project, world) && other !in copied && id !in world
    ensures CopyOf(row, copied[other := id], project, world[id := copy])
  {}

  lemma ValuesGrow(m: map<Id, Id>, key: Id, value: Id)
    requires key !in m
    ensures m[key := value].Values == m.Values + {value}
  {
    var m' := m[key := value];
    forall v | v in m.Values ensures v in m'.Values {
      var k :| k in m && m[k] == v;
      assert m'[k] == v;
    }
    assert m'[key] == value;
  }

  /** The copies form the same tree: parents and children correspond both ways. */
  lemma ChildrenCorrespond(
      rows: seq<Collection>, copied: map<Id, Id>, project: Id, before: map<Id, Copy>, world: map<Id, Copy>, i: nat, j: nat)
    requires CopiedSoFar(rows, copied, project, before, world)
    requires i < |rows| && j < |rows| && rows[i].id in copied && rows[j].id in copied
    ensures copied[rows[i].id] in world
    ensures world[copied[rows[i].id]].parent == Some(copied[rows[j].id]) <==> rows[i].parent == Some(rows[j].id)
    ensures world[copied[rows[i].id]].parent.None? <==> rows[i].parent.None?
  {
    assert CopyOf(rows[i], copied, project, world);
  }

  function SavedCopies(rows: seq<RequestRow>, project: Id, envelopes: Id -> Option<nat>, copied: map<Id, Id>, to: Id): seq<Saved> {
    if rows == [] then []
    else
      var front := SavedCopies(rows[..|rows| - 1], project, envelopes, copied, to);
      var last := rows[|rows| - 1];
      if last.project == project && last.collection in copied && envelopes(last.id).Some?
      then front + [Saved(envelopes(last.id).value, to, copied[last.collection])]
      else front
  }

  /** Every saved request lies in the new project under the copy of its own collection. */
  lemma {:induction false} SavedUnderCopies(
      rows: seq<RequestRow>, project: Id, envelopes: Id -> Option<nat>, copied: map<Id, Id>, to: Id, s: Saved)
    ensures s in SavedCopies(rows, project, envelopes, copied, to) <==>
            exists i :: 0 <= i < |rows| && rows[i].project == project && rows[i].collection in copied
              && envelopes(rows[i].id) == Some(s.envelope) && s.project == to && s.collection == copied[rows[i].collection]
    decreases |rows|
  {
    if rows != [] {
      var n := |rows| - 1;
      SavedUnderCopies(rows[..n], project, envelopes, copied, to, s);
      assert forall i :: 0 <= i < n ==> rows[..n][i] == rows[i];
    }
  }

  class Agent {
    var projects: set<Id>
    var collections: map<Id, Copy>
    var saved: seq<Saved>

    constructor () { projects, collections, saved := {}, map[], []; }

    method CreateProject() returns (id: Id)
      modifies this`projects
      ensures id !in old(projects) && projects == old(projects) + {id}
    {
      id := FreshId(projects);
      projects := projects + {id};
    }

    method CreateCollection(project: Id, parent: Option<Id>, name: string) returns (id: Id)
      modifies this`collections
      ensures id !in old(collections) && collections == old(collections)[id := Copy(project, parent, name)]
    {
      id := FreshId(collections.Keys);
      collections := collections[id := Copy(project, parent, name)];
    }

    method SaveEnvelope(envelope: nat, project: Id, collection: Id)
      modifies this`saved
      ensures saved == old(saved) + [Saved(envelope, project, collection)]
    {
      saved := saved + [Saved(envelope, project, collection)];
    }
  }

  method FreshId(used: set<Id>) returns (id: Id)
    ensures id !in used
  {
    id := 0;
    var left := used;
    while id in used
      invariant forall k: nat :: k in used && k >= id ==> k in left
      decreases left
    {
      left := left - {id};
      id := id + 1;
    }
  }

  method FindReady(pending: seq<Collection>, copied: map<Id, Id>) returns (index: Option<nat>)
    ensures index.Some? ==> index.value < |pending| && Ready(pending[index.value], copied)
    ensures index.Some? ==> forall i :: 0 <= i < index.value ==> !Ready(pending[i], copied)
    ensures index.None? ==> forall i :: 0 <= i < |pending| ==> !Ready(pending[i], copied)
  {
    for i := 0 to |pending|
      invariant forall k :: 0 <= k < i ==> !Ready(pending[k], copied)
    {
      if Ready(pending[i], copied) {
        return Some(i);
      }
    }
    index := None;
  }

  ghost predicate Partition(rows: seq<Collection>, pending: seq<Collection>, copied: map<Id, Id>) {
    && UniqueIds(pending)
    && (forall i :: 0 <= i < |pending| ==> pending[i] in rows && pending[i].id !in copied)
    && (forall i :: 0 <= i < |rows| ==> rows[i].id in copied || rows[i] in pending)
  }

  lemma PartitionStep(rows: seq<Collection>, pending: seq<Collection>, copied: map<Id, Id>, k: nat, id: Id)
    requires Partition(rows, pending, copied) && k < |pending|
    ensures Partition(rows, pending[..k] + pending[k + 1..], copied[pending[k].id := id])
  {
    var rest := pending[..k] + pending[k + 1..];
    RestIndices(pending, k);
    forall i, j | 0 <= i < j < |rest| ensures rest[i].id != rest[j].id {
      assert pending[if i < k then i else i + 1].id != pending[if j < k then j else j + 1].id;
    }
    forall i | 0 <= i < |rest| ensures rest[i] in rows && rest[i].id !in copied && rest[i].id != pending[k].id {
      assert rest[i] == pending[if i < k then i else i + 1];
    }
    forall i | 0 <= i < |rows| && rows[i].id !in copied && rows[i].id != pending[k].id ensures rows[i] in rest {
      var j :| 0 <= j < |pending| && pending[j] == rows[i];
      assert rest[if j < k then j else j - 1] == rows[i];
    }
  }

  lemma RestIndices(pending: seq<Collection>, k: nat)
    requires k < |pending|
    ensures var rest := pending[..k] + pending[k + 1..];
            |rest| == |pending| - 1 && forall i :: 0 <= i < |rest| ==> rest[i] == if i < k then pending[i] else pending[i + 1]
  {}

  /**
   * The worklist: it ends, and it gives up exactly when some collection's chain of parents does not
   * reach a root among the project's own collections. Otherwise all of them are copied.
   */
  method CloneCollections(agent: Agent, rows: seq<Collection>, project: Id) returns (r: Option<map<Id, Id>>)
    requires UniqueIds(rows)
    modifies agent`collections
    ensures r.None? <==> !AllGrounded(rows)
    ensures r.Some? ==>
              && (forall id :: id in r.value <==> Holds(rows, id))
              && CopiedSoFar(rows, r.value, project, old(agent.collections), agent.collections)
  {
    var copied: map<Id, Id> := map[];
    var pending := rows;
    while pending != []
      invariant Partition(rows, pending, copied)
      invariant CopiedSoFar(rows, copied, project, old(agent.collections), agent.collections)
      invariant forall id :: id in copied ==> Grounded(rows, id)
      decreases |pending|
    {
      var index := FindReady(pending, copied);
      if index.None? {
        StuckHasVictim(rows, pending, copied);
        return None;
      }
      var k := index.value;
      var row := pending[k];
      ghost var at: nat :| at < |rows| && rows[at] == row;
      ReadyIsGrounded(rows, at, copied);
      ghost var before := agent.collections;
      var id := agent.CreateCollection(project, MapParent(row.parent, copied), row.name);
      CopyOneMore(rows, at, copied, project, old(agent.collections), before, id);
      PartitionStep(rows, pending, copied, k, id);
      pending := pending[..k] + pending[k + 1..];
      copied := copied[row.id := id];
    }
    r := Some(copied);
  }

  lemma StuckHasVictim(rows: seq<Collection>, pending: seq<Collection>, copied: map<Id, Id>)
    requires UniqueIds(rows) && Partition(rows, pending, copied) && pending != []
    requires forall i :: 0 <= i < |pending| ==> !Ready(pending[i], copied)
    ensures !AllGrounded(rows)
  {
    assert pending[0] in rows;
    var at :| 0 <= at < |rows| && rows[at] == pending[0];
    forall steps: nat ensures !ReachesRoot(rows, pending[0].id, steps) {
      StuckIsNotGrounded(rows, pending, copied, 0, steps);
    }
    assert !Grounded(rows, rows[at].id);
  }

  method CloneRequests(
      agent: Agent, rows: seq<RequestRow>, project: Id, envelopes: Id -> Option<nat>, copied: map<Id, Id>, to: Id)
    modifies agent`saved
    ensures agent.saved == old(agent.saved) + SavedCopies(rows, project, envelopes, copied, to)
  {
    assert rows[..0] == [];
    for n := 0 to |rows|
      invariant agent.saved == old(agent.saved) + SavedCopies(rows[..n], project, envelopes, copied, to)
    {
      assert rows[..n + 1][..n] == rows[..n];
      var row := rows[n];
      if row.project == project && row.collection in copied {
        var envelope := envelopes(row.id);
        if envelope.Some? {
          agent.SaveEnvelope(envelope.value, to, copied[row.collection]);
        }
      }
    }
    assert rows[..|rows|] == rows;
  }

  // ----- the whole clone -----

  lemma {:induction false} OfProjectAre(rows: seq<Collection>, project: Id)
    ensures forall row :: row in OfProject(rows, project) <==> row in rows && row.project == project
    ensures UniqueIds(rows) ==> UniqueIds(OfProject(rows, project))
    decreases |rows|
  {
    if rows != [] {
      var n := |rows| - 1;
      OfProjectAre(rows[..n], project);
      assert rows == rows[..n] + [rows[n]];
      assert UniqueIds(rows) ==> forall row :: row in rows[..n] ==> row.id != rows[n].id;
    }
  }

  datatype CloneError = UnknownProject | BrokenHierarchy

  /**
   * Fails on an unknown project, and after creating the project when its collections cannot all be
   * ordered; otherwise the new project holds an isomorphic tree and the requests filed in it.
   */
  method Clone(
      agent: Agent, projects: seq<Id>, collections: seq<Collection>, requests: seq<RequestRow>,
      envelopes: Id -> Option<nat>, project: Id) returns (r: Result<Id, CloneError>, ghost copied: map<Id, Id>)
    requires UniqueIds(collections)
    modifies agent
    ensures r == Err(UnknownProject) <==> project !in projects
    ensures r == Err(BrokenHierarchy) <==>
              project in projects && !AllGrounded(OfProject(collections, project))
    ensures r.Err? ==> agent.saved == old(agent.saved)
    ensures r.Ok? ==>
              && r.value !in old(agent.projects)
              && (forall id :: id in copied <==> Holds(OfProject(collections, project), id))
              && CopiedSoFar(OfProject(collections, project), copied, r.value, old(agent.collections), agent.collections)
              && agent.saved == old(agent.saved) + SavedCopies(requests, project, envelopes, copied, r.value)
  {
    copied := map[];
    if project !in projects {
      return Err(UnknownProject), copied;
    }
    var to := agent.CreateProject();
    OfProjectAre(collections, project);
    var ids := CloneCollections(agent, OfProject(collections, project), to);
    if ids.None? {
      return Err(BrokenHierarchy), copied;
    }
    copied := ids.value;
    CloneRequests(agent, requests, project, envelopes, ids.value, to);
    r := Ok(to);
  }
}
