/**
 * The local store itself: tables that its methods update in place. Every method is proved to do
 * to the abstract store what the function of the same name in module Store does.
 */
module LocalStore {
  import opened Base
  import opened Forest
  import T = Tree
  import opened Text
  import opened Envelope
  import opened Blobs
  import S = Store
  import opened StoreLaws
  import opened StoreRuns

  type StoreError = T.StoreError

  // ----- facts about single-row updates -----

  lemma LookupIsUnique(t: BlobTable, data: Bytes, b: Id)
    requires TableOk(t) && b in t.rows && t.rows[b].digest == Sha256(data)
    ensures BlobWith(t, Sha256(data)) == Some(b)
  {}

  lemma RemainingOne(rows: map<Id, Blob>, id: Id)
    ensures id !in rows ==> Remaining(rows, multiset{id}) == rows
    ensures id in rows && rows[id].refCount > 1 ==>
              Remaining(rows, multiset{id}) == rows[id := rows[id].(refCount := rows[id].refCount - 1)]
    ensures id in rows && rows[id].refCount <= 1 ==> Remaining(rows, multiset{id}) == rows - {id}
  {
    var bag := multiset{id};
    assert bag[id] == 1 && forall c :: c != id ==> bag[c] == 0;
  }

  lemma ReleaseOneRow(t: BlobTable, id: Id)
    ensures id !in t.rows || t.rows[id].refCount > 1 ==> Release(t, multiset{id}).files == t.files
    ensures id in t.rows && t.rows[id].refCount <= 1 ==> Release(t, multiset{id}).files == t.files - {t.rows[id].digest}
  {
    RemainingOne(t.rows, id);
    var rows := Remaining(t.rows, multiset{id});
    var dropped := set b | b in t.rows && b !in rows :: t.rows[b].digest;
    if id in t.rows && t.rows[id].refCount <= 1 {
      assert dropped == {t.rows[id].digest};
    } else {
      assert dropped == {};
    }
  }

  lemma ReleaseNext(t: BlobTable, ids: seq<Id>, i: nat)
    requires TableOk(t) && i < |ids|
    ensures TableOk(Release(t, multiset{ids[i]}))
    ensures Release(Release(t, multiset{ids[i]}), multiset(ids[i + 1..])) == Release(t, multiset(ids[i..]))
  {
    assert ids[i..] == [ids[i]] + ids[i + 1..];
    ReleaseStep(t, ids[i], multiset(ids[i + 1..]));
  }

  lemma NamedInUnion(named: set<Id>, a: set<Id>, b: set<Id>)
    requires a !! b
    ensures |named * (a + b)| == |named * a| + |named * b|
  {
    assert named * (a + b) == named * a + named * b;
    assert (named * a) !! (named * b);
  }

  lemma BagOfUnion(column: map<Id, Id>, a: set<Id>, b: set<Id>)
    requires a !! b
    ensures S.BagOf(column, a + b) == S.BagOf(column, a) + S.BagOf(column, b)
  {
    var sum := S.BagOf(column, a) + S.BagOf(column, b);
    forall x ensures sum[x] == |S.Naming(column, x) * (a + b)| {
      NamedInUnion(S.Naming(column, x), a, b);
    }
    BagDetermined(column, a + b, sum);
  }

  /** One more row adds the blob it names, if any. */
  lemma BagOfNext(requests: map<Id, S.Row>, done: set<Id>, r: Id)
    requires r in requests && r !in done
    ensures S.BagOf(S.BodyColumn(requests), done + {r}) == S.BagOf(S.BodyColumn(requests), done) + S.Bag(requests[r].bodyBlob)
  {
    BagOfUnion(S.BodyColumn(requests), done, {r});
    OneRowBag(requests, r);
  }

  lemma BagOfNone(column: map<Id, Id>)
    ensures S.BagOf(column, {}) == multiset{}
  {}

  function Listed(rows: seq<Id>): set<Id> {
    set c | c in rows
  }

  class LocalStore {
    var projects: set<Id>
    var modules: map<Id, T.Module>
    var collections: Collections
    var requests: map<Id, S.Row>
    var executions: map<Id, S.Execution>
    var blobIndex: map<Id, Blob>
    var blobDir: map<Digest, Bytes>
    ghost var books: S.Ledger

    ghost function Tree(): T.Tree
      reads this
    {
      T.Tree(projects, modules, collections)
    }

    ghost function Table(): BlobTable
      reads this
    {
      BlobTable(blobIndex, blobDir)
    }

    ghost function View(): S.Store
      reads this
    {
      S.Store(Tree(), requests, executions, Table(), books)
    }

    ghost predicate Valid()
      reads this
    {
      S.StoreOk(View())
    }

    /** A fresh database with its default rows. */
    constructor ()
      ensures Valid() && View() == InitialStore()
    {
      projects := {T.DEFAULT_PROJECT};
      modules := map[T.DEFAULT_MODULE := T.Module(T.DEFAULT_PROJECT, true)];
      collections := map[T.DEFAULT_COLLECTION := Collection(T.DEFAULT_PROJECT, T.DEFAULT_MODULE, "Default Collection", None)];
      requests, executions, blobIndex, blobDir := map[], map[], map[], map[];
      books := S.Ledger(map[], multiset{}, multiset{});
      new;
      InitialStoreOk();
    }

    // ----- blobs -----

    method PutBlob(data: Bytes, uuid: Id) returns (r: Result<Id, StoreError>)
      requires TableOk(Table())
      modifies this`blobIndex, this`blobDir
      ensures Put(Table(), r) == Blobs.PutBlob(old(Table()), data, uuid)
    {
      if b :| b in blobIndex && blobIndex[b].digest == Sha256(data) {
        LookupIsUnique(Table(), data, b);
        blobIndex := blobIndex[b := blobIndex[b].(refCount := blobIndex[b].refCount + 1)];
        return Ok(b);
      }
      if uuid in blobIndex {
        return Err(T.Sqlite);
      }
      blobDir := blobDir[Sha256(data) := data];
      blobIndex := blobIndex[uuid := Blob(Sha256(data), 1)];
      r := Ok(uuid);
    }

    method ReleaseBlob(id: Id)
      requires TableOk(Table())
      modifies this`blobIndex, this`blobDir
      ensures Table() == Release(old(Table()), multiset{id})
    {
      RemainingOne(blobIndex, id);
      ReleaseOneRow(Table(), id);
      if id !in blobIndex {
        return;
      }
      if blobIndex[id].refCount > 1 {
        blobIndex := blobIndex[id := blobIndex[id].(refCount := blobIndex[id].refCount - 1)];
      } else {
        blobDir := blobDir - {blobIndex[id].digest};
        blobIndex := blobIndex - {id};
      }
    }

    method ReleaseOptional(blob: Option<Id>)
      requires TableOk(Table())
      modifies this`blobIndex, this`blobDir
      ensures Table() == Release(old(Table()), S.Bag(blob))
    {
      ReleaseNothing(Table());
      if blob.Some? {
        ReleaseBlob(blob.value);
      }
    }

    method ReleaseEach(ids: seq<Id>)
      requires TableOk(Table())
      modifies this`blobIndex, this`blobDir
      ensures Table() == Release(old(Table()), multiset(ids))
    {
      var i := 0;
      assert ids[0..] == ids;
      while i < |ids|
        invariant 0 <= i <= |ids|
        invariant TableOk(Table())
        invariant Release(Table(), multiset(ids[i..])) == Release(old(Table()), multiset(ids))
      {
        ReleaseNext(Table(), ids, i);
        ReleaseBlob(ids[i]);
        i := i + 1;
      }
      assert ids[i..] == [];
      ReleaseNothing(Table());
    }

    method ExternalizeHttpBody(e: Envelope, uuid: Id) returns (r: Result<(Envelope, Option<Id>), StoreError>)
      requires TableOk(Table())
      modifies this`blobIndex, this`blobDir
      ensures r.Err? ==> Table() == old(Table()) && Externalize(old(Table()), e, uuid) == Err(r.error)
      ensures r.Ok? ==> Externalize(old(Table()), e, uuid) == Ok(Externalized(Table(), r.value.0, r.value.1))
    {
      if !IsLarge(e) {
        return Ok((e, None));
      }
      var blob := PutBlob(Body(e).value, uuid);
      if blob.Err? {
        return Err(blob.error);
      }
      r := Ok((WithBody(e, MARKER + blob.value), Some(blob.value)));
    }

    method HydrateHttpBody(e: Envelope, blob: Option<Id>) returns (r: Result<Envelope, StoreError>)
      ensures r == Hydrate(Table(), e, blob)
    {
      var source := blob;
      if source.None? {
        source := MarkedBlob(e);
      }
      if source.None? {
        return Ok(e);
      }
      if source.value !in blobIndex {
        return Err(T.NotFound(source.value));
      }
      if blobIndex[source.value].digest !in blobDir {
        return Err(T.Io);
      }
      r := Ok(WithBody(e, blobDir[blobIndex[source.value].digest]));
    }

    // ----- requests -----

    /** Saves a request and returns it as it reads back. */
    method SaveRequest(e: Envelope, project: Id, collection: Id, uuid: Id) returns (r: Result<Envelope, StoreError>)
      requires Valid()
      modifies this
      ensures Valid()
      ensures View() == S.SaveRequest(old(View()), e, project, collection, uuid).store
      ensures r == S.SaveReply(S.SaveRequest(old(View()), e, project, collection, uuid), e.id)
    {
      SaveRequestLaw(View(), e, project, collection, uuid);
      r := SaveRow(e, project, collection, uuid);
    }

    method SaveRow(e: Envelope, project: Id, collection: Id, uuid: Id) returns (r: Result<Envelope, StoreError>)
      requires TableOk(Table())
      modifies this
      ensures View() == S.SaveRequest(old(View()), e, project, collection, uuid).store
      ensures r == S.SaveReply(S.SaveRequest(old(View()), e, project, collection, uuid), e.id)
    {
      var previous := if e.id in requests then requests[e.id].bodyBlob else None;
      ExternalizeKeepsTable(Table(), Sanitize(e), uuid);
      var x := ExternalizeHttpBody(Sanitize(e), uuid);
      if x.Err? {
        return Err(x.error);
      }
      var (stored, blob) := x.value;
      if project !in projects || collection !in collections {
        ReleaseOptional(blob);
        return Err(T.Sqlite);
      }
      requests := requests[e.id := S.Row(project, collection, stored, blob)];
      ReleaseOptional(previous);
      r := HydrateHttpBody(stored, blob);
    }

    method GetRequest(id: Id) returns (r: Result<Option<Envelope>, StoreError>)
      requires Valid()
      ensures r == S.GetRequest(View(), id)
    {
      if id !in requests {
        return Ok(None);
      }
      var e := HydrateHttpBody(requests[id].envelope, requests[id].bodyBlob);
      r := if e.Err? then Err(e.error) else Ok(Some(e.value));
    }

    method DeleteRequest(id: Id) returns (r: T.Outcome)
      requires Valid()
      modifies this
      ensures Valid() && S.Effect(View(), r) == S.DeleteRequest(old(View()), id)
    {
      DeleteRequestLaw(View(), id);
      r := DeleteRow(id);
    }

    method DeleteRow(id: Id) returns (r: T.Outcome)
      requires TableOk(Table())
      modifies this
      ensures S.Effect(View(), r) == S.DeleteRequest(old(View()), id)
    {
      if id !in requests {
        return T.Failed(T.NotFound(id));
      }
      var blob := requests[id].bodyBlob;
      requests := requests - {id};
      ReleaseOptional(blob);
      r := T.Done;
    }

    method MoveRequest(id: Id, project: Id, collection: Id) returns (r: T.Outcome)
      requires Valid()
      modifies this`requests
      ensures Valid() && S.Effect(View(), r) == S.MoveRequest(old(View()), id, project, collection)
    {
      MoveRequestLaw(View(), id, project, collection);
      r := MoveRow(id, project, collection);
    }

    method MoveRow(id: Id, project: Id, collection: Id) returns (r: T.Outcome)
      modifies this`requests
      ensures S.Effect(View(), r) == S.MoveRequest(old(View()), id, project, collection)
    {
      if collection !in collections || collections[collection].project != project {
        return T.Failed(T.InvalidId);
      }
      if id !in requests {
        return T.Failed(T.NotFound(id));
      }
      requests := requests[id := requests[id].(project := project, collection := collection)];
      r := T.Done;
    }

    // ----- executions -----

    /** Valid afterwards whenever the caller holds the response blob it passes on. */
    method RecordExecution(rec: S.ExecutionRecord, uuid: Id, uuid2: Id) returns (r: T.Outcome)
      requires Valid()
      modifies this
      ensures S.Effect(View(), r) == S.RecordExecution(old(View()), rec, uuid, uuid2)
      ensures rec.responseBlob.None? ==> Valid()
      ensures rec.responseBlob.Some? ==>
                (Valid() <==>
                   || rec.responseBlob.value in old(books.handles)
                   || S.Prepare(old(Table()), rec, uuid, uuid2).Err?
                   || (rec.id in old(executions) && rec.responseBlob.value !in old(blobIndex)))
    {
      RecordKeeps(View(), rec, uuid, uuid2);
      r := RecordRow(rec, uuid, uuid2);
    }

    method RecordRow(rec: S.ExecutionRecord, uuid: Id, uuid2: Id) returns (r: T.Outcome)
      requires TableOk(Table())
      modifies this
      ensures S.Effect(View(), r) == S.RecordExecution(old(View()), rec, uuid, uuid2)
    {
      var p := PrepareExecution(rec, uuid, uuid2);
      if p.Err? {
        return T.Failed(p.error);
      }
      var (snapshot, body, response) := p.value;
      books := books.(handles := books.handles - S.Bag(rec.responseBlob));
      if rec.id in executions {
        ReleaseBoth(Table(), body, response);
        ReleaseOptional(body);
        ReleaseOptional(response);
        return T.Failed(T.Sqlite);
      }
      var preview := if S.StoresPreview(rec) then Some(S.CharPrefix(rec.preview.value, 4096)) else rec.preview;
      executions := executions[rec.id := S.Execution(snapshot, preview, response)];
      books := books.(snapshots := if body.Some? then books.snapshots[rec.id := body.value] else books.snapshots);
      r := T.Done;
    }

    /** Moves a large snapshot body, then a long preview, into blobs; the second failing undoes the first. */
    method PrepareExecution(rec: S.ExecutionRecord, uuid: Id, uuid2: Id)
      returns (r: Result<(Option<Envelope>, Option<Id>, Option<Id>), StoreError>)
      requires TableOk(Table())
      modifies this`blobIndex, this`blobDir
      ensures TableOk(Table())
      ensures r.Err? ==> S.Prepare(old(Table()), rec, uuid, uuid2) == Err((Table(), r.error))
      ensures r.Ok? ==> S.Prepare(old(Table()), rec, uuid, uuid2) == Ok(S.Prepared(Table(), r.value.0, r.value.1, r.value.2))
    {
      var snapshot, body := None, None;
      if rec.snapshot.Some? {
        ExternalizeKeepsTable(Table(), Sanitize(rec.snapshot.value), uuid);
        var x := ExternalizeHttpBody(Sanitize(rec.snapshot.value), uuid);
        if x.Err? {
          return Err(x.error);
        }
        snapshot, body := Some(x.value.0), x.value.1;
      }
      var response := rec.responseBlob;
      if S.StoresPreview(rec) {
        PutBlobKeeps(Table(), rec.preview.value, uuid2);
        var blob := PutBlob(rec.preview.value, uuid2);
        if blob.Err? {
          ReleaseBoth(Table(), body, None);
          ReleaseOptional(body);
          return Err(blob.error);
        }
        response := Some(blob.value);
      }
      r := Ok((snapshot, body, response));
    }

    /** A caller stores bytes and takes the reference with it. */
    method PutForCaller(data: Bytes, uuid: Id) returns (r: Result<Id, StoreError>)
      requires Valid()
      modifies this
      ensures Valid() && View() == S.PutForCaller(old(View()), data, uuid).store
      ensures r == Blobs.PutBlob(old(Table()), data, uuid).result
    {
      PutForCallerLaw(View(), data, uuid);
      r := PutAndHand(data, uuid);
    }

    method PutAndHand(data: Bytes, uuid: Id) returns (r: Result<Id, StoreError>)
      requires TableOk(Table())
      modifies this
      ensures View() == S.PutForCaller(old(View()), data, uuid).store
      ensures r == Blobs.PutBlob(old(Table()), data, uuid).result
    {
      PutFailsClean(Table(), data, uuid);
      hide Blobs.PutBlob;
      r := PutBlob(data, uuid);
      if r.Ok? {
        books := books.(handles := books.handles + multiset{r.value});
      }
    }

    // ----- the collection tree -----

    /** A project and its default module; the module's id is derived from the project's. */
    method CreateProject(id: Id, name: string) returns (r: T.Outcome)
      requires Valid()
      modifies this`projects, this`modules
      ensures Valid() && T.TreeStep(Tree(), r) == T.CreateProject(old(Tree()), id, name)
    {
      TreeStepLaw(View(), OpCreateProject(id, name));
      if Trim(name) == "" {
        return T.Failed(T.InvalidId);
      }
      if id in projects {
        return T.Failed(T.Sqlite);
      }
      projects := projects + {id};
      if T.DEFAULT_MODULE_PREFIX + id in modules {
        return T.Failed(T.Sqlite);
      }
      modules := modules[T.DEFAULT_MODULE_PREFIX + id := T.Module(id, true)];
      r := T.Done;
    }

    method CreateModule(id: Id, project: Id, name: string) returns (r: T.Outcome)
      requires Valid()
      modifies this`modules
      ensures Valid() && T.TreeStep(Tree(), r) == T.CreateModule(old(Tree()), id, project, name)
    {
      TreeStepLaw(View(), OpCreateModule(id, project, name));
      if Trim(name) == "" {
        return T.Failed(T.InvalidId);
      }
      if id in modules || project !in projects {
        return T.Failed(T.Sqlite);
      }
      modules := modules[id := T.Module(project, false)];
      r := T.Done;
    }

    method CreateCollectionInModule(id: Id, project: Id, requested: Option<Id>, parent: Option<Id>, name: string)
      returns (r: T.Outcome)
      requires Valid()
      modifies this`collections
      ensures Valid() && T.TreeStep(Tree(), r) == T.CreateCollection(old(Tree()), id, project, requested, parent, name)
      ensures r.Done? ==> T.Added(old(Tree()), Tree(), id, project, requested, parent, name)
      ensures r.Failed? ==> Tree() == old(Tree())
    {
      TreeStepLaw(View(), OpCreateCollection(id, project, requested, parent, name));
      T.CreateCollectionExactly(Tree(), id, project, requested, parent, name);
      hide T.CreateCollection, S.StoreOk;
      r := CreateRow(id, project, requested, parent, name);
    }

    method CreateRow(id: Id, project: Id, requested: Option<Id>, parent: Option<Id>, name: string) returns (r: T.Outcome)
      requires T.ModulesOk(Tree())
      modifies this`collections
      ensures T.TreeStep(Tree(), r) == T.CreateCollection(old(Tree()), id, project, requested, parent, name)
    {
      if Trim(name) == "" {
        return T.Failed(T.InvalidId);
      }
      var mod;
      if parent.Some? {
        if parent.value !in collections || collections[parent.value].project != project {
          return T.Failed(T.NotFound(parent.value));
        }
        mod := collections[parent.value].mod;
      } else if requested.Some? {
        if requested.value !in modules || modules[requested.value].project != project {
          return T.Failed(T.NotFound(requested.value));
        }
        mod := requested.value;
      } else if m :| m in modules && modules[m].project == project && modules[m].isDefault {
        assert T.IsDefaultModule(Tree(), project, m);
        mod := m;
      } else {
        assert forall m :: !T.IsDefaultModule(Tree(), project, m);
        return T.Failed(T.Sqlite);
      }
      assert T.PlaceCollection(Tree(), project, requested, parent) == Ok(mod);
      if id in collections {
        return T.Failed(T.Sqlite);
      }
      collections := collections[id := Collection(project, mod, Trim(name), parent)];
      r := T.Done;
    }

    /** Walks from the proposed parent to its root; ends because the rows form a forest. */
    method CheckNewParent(id: Id, parent: Id) returns (refused: Option<StoreError>)
      requires T.TreeOk(Tree()) && id in collections
      ensures refused == T.RefuseMove(collections, id, Some(parent))
    {
      var project := collections[id].project;
      var cursor := parent;
      ghost var n: nat := 0;
      ghost var bound: nat := 1;
      if parent in collections {
        assert ReachesRoot(collections, parent);
        bound :| Up(collections, parent, bound) == None;
      }
      while true
        invariant Up(collections, parent, n) == Some(cursor)
        invariant forall k: nat :: k < n ==> Up(collections, parent, k) != Some(id)
        invariant n > 0 ==> parent in collections && cursor in collections
        invariant n > 0 ==> collections[parent].project == project && collections[cursor].project == project
        invariant parent in collections ==> Up(collections, parent, bound) == None && n < bound
        decreases bound - n
      {
        if cursor == id {
          assert Under(collections, parent, id);
          return Some(T.InvalidId);
        }
        if cursor !in collections {
          return Some(T.NotFound(cursor));
        }
        if collections[cursor].project != project {
          return Some(T.InvalidId);
        }
        UpCompose(collections, parent, n, 1);
        assert Up(collections, parent, n + 1) == Up(collections, cursor, 1);
        if collections[cursor].parent.None? {
          NeverMeets(collections, parent, id, n + 1);
          return None;
        }
        assert Up(collections, cursor, 1) == Up(collections, collections[cursor].parent.value, 0);
        StillBelow(collections, parent, n + 1, bound);
        cursor := collections[cursor].parent.value;
        n := n + 1;
      }
    }

    method UpdateCollection(id: Id, name: string, parent: Option<Id>) returns (r: T.Outcome)
      requires Valid()
      modifies this`collections
      ensures Valid() && T.TreeStep(Tree(), r) == T.UpdateCollection(old(Tree()), id, name, parent)
      ensures r.Done? ==> T.Moved(old(Tree()), Tree(), id, name, parent)
      ensures r.Failed? ==> Tree() == old(Tree())
    {
      T.UpdateCollectionExactly(Tree(), id, name, parent);
      TreeStepLaw(View(), OpUpdateCollection(id, name, parent));
      r := UpdateRow(id, name, parent);
    }

    method UpdateRow(id: Id, name: string, parent: Option<Id>) returns (r: T.Outcome)
      requires T.TreeOk(Tree())
      modifies this`collections
      ensures T.TreeStep(Tree(), r) == T.UpdateCollection(old(Tree()), id, name, parent)
    {
      if Trim(name) == "" || parent == Some(id) {
        return T.Failed(T.InvalidId);
      }
      if id !in collections {
        return T.Failed(T.NotFound(id));
      }
      var source := collections[id].mod;
      var target := source;
      if parent.Some? {
        var refused := CheckNewParent(id, parent.value);
        if refused.Some? {
          return T.Failed(refused.value);
        }
        target := collections[parent.value].mod;
      }
      MovedIsForest(collections, id, Trim(name), parent);
      collections := collections[id := collections[id].(name := Trim(name), parent := parent)];
      if target != source {
        var rows := Subtree(id);
        collections := T.SetModule(collections, Listed(rows), target);
      }
      r := T.Done;
    }

    /** The recursive subtree query: a queue of rows, each of which contributes its children. */
    method Subtree(id: Id) returns (rows: seq<Id>)
      requires IsForest(collections)
      ensures id !in collections ==> rows == []
      ensures id in collections ==> Listed(rows) == Cascade(collections, {id})
      ensures NoRepeats(rows)
    {
      rows := [];
      if id !in collections {
        return;
      }
      var queue := [id];
      SubtreeStart(collections, id);
      while queue != []
        invariant SubtreeInv(collections, id, rows, queue)
        decreases |collections| - |rows|
      {
        var c := queue[0];
        var children := ChildrenOf(c);
        SubtreeStep(collections, id, rows, queue, children);
        rows, queue := rows + [c], queue[1..] + children;
        SubtreeRowsFit(collections, id, rows, queue);
      }
      SubtreeEnd(collections, id, rows);
    }

    method ChildrenOf(c: Id) returns (children: seq<Id>)
      ensures Listed(children) == Children(collections, {c})
      ensures NoRepeats(children)
    {
      children := [];
      var todo := Children(collections, {c});
      while todo != {}
        invariant Listed(children) + todo == Children(collections, {c})
        invariant Listed(children) !! todo
        invariant NoRepeats(children)
        decreases todo
      {
        var x :| x in todo;
        children, todo := children + [x], todo - {x};
      }
    }

    // ----- deleting with cascades -----

    /** The blob column of the given rows, in whatever order the rows come. */
    method BlobIdsOf(rows: set<Id>) returns (ids: seq<Id>)
      requires rows <= requests.Keys
      ensures multiset(ids) == S.BagOf(S.BodyColumn(requests), rows)
    {
      ids := [];
      var todo := rows;
      ghost var done := {};
      BagOfNone(S.BodyColumn(requests));
      while todo != {}
        invariant done !! todo && done + todo == rows
        invariant multiset(ids) == S.BagOf(S.BodyColumn(requests), done)
        decreases todo
      {
        var r :| r in todo;
        BagOfNext(requests, done, r);
        var named := if requests[r].bodyBlob.Some? then [requests[r].bodyBlob.value] else [];
        assert multiset(named) == S.Bag(requests[r].bodyBlob);
        ids := ids + named;
        todo := todo - {r};
        done := done + {r};
      }
      assert done == rows;
    }

    /** Requests joined with the subtree rows: one blob id per (row, request) pair. */
    method BlobIdsForSubtree(id: Id) returns (ids: seq<Id>)
      requires IsForest(collections) && id in collections
      ensures multiset(ids) == S.BagOf(S.BodyColumn(requests), S.RequestsIn(requests, Cascade(collections, {id})))
    {
      var rows := Subtree(id);
      ids := [];
      assert S.RequestsIn(requests, Listed(rows[..0])) == {};
      BagOfNone(S.BodyColumn(requests));
      for i := 0 to |rows|
        invariant multiset(ids) == S.BagOf(S.BodyColumn(requests), S.RequestsIn(requests, Listed(rows[..i])))
      {
        var more := BlobIdsOf(S.RequestsIn(requests, {rows[i]}));
        JoinNextRow(requests, rows, i);
        ids := ids + more;
      }
      assert rows[..|rows|] == rows;
    }

    method DeleteCollection(id: Id) returns (r: T.Outcome)
      requires Valid()
      modifies this
      ensures Valid() && S.Effect(View(), r) == S.DeleteCollection(old(View()), id)
    {
      DeleteCollectionLaw(View(), id);
      r := DeleteCollectionRows(id);
    }

    method DeleteCollectionRows(id: Id) returns (r: T.Outcome)
      requires TableOk(Table()) && IsForest(collections)
      modifies this
      ensures S.Effect(View(), r) == S.DeleteCollection(old(View()), id)
    {
      if id == T.DEFAULT_COLLECTION {
        return T.Failed(T.InvalidId);
      }
      if id !in collections {
        return T.Failed(T.NotFound(id));
      }
      var ids := BlobIdsForSubtree(id);
      DropCollection(id, ids);
      r := T.Done;
    }

    method DropCollection(id: Id, ids: seq<Id>)
      requires TableOk(Table())
      modifies this
      ensures View() == old(View()).(tree := T.PruneCollection(old(Tree()), id),
                                     requests := old(requests) - S.RequestsIn(old(requests), Cascade(old(collections), {id})),
                                     blobs := Release(old(Table()), multiset(ids)))
    {
      CascadeCollection(id);
      ReleaseEach(ids);
    }

    /** What the foreign keys do when a collection row goes: its subtree and their requests follow. */
    method CascadeCollection(id: Id)
      modifies this`collections, this`requests
      ensures collections == old(collections) - Cascade(old(collections), {id})
      ensures requests == old(requests) - S.RequestsIn(old(requests), Cascade(old(collections), {id}))
    {
      var gone := Cascade(collections, {id});
      requests := requests - S.RequestsIn(requests, gone);
      collections := collections - gone;
    }

    method DeleteProject(id: Id) returns (r: T.Outcome)
      requires Valid()
      modifies this
      ensures Valid() && S.Effect(View(), r) == S.DeleteProject(old(View()), id)
    {
      DeleteProjectLaw(View(), id);
      r := DeleteProjectRows(id);
    }

    method DeleteProjectRows(id: Id) returns (r: T.Outcome)
      requires TableOk(Table()) && IsForest(collections)
      modifies this
      ensures S.Effect(View(), r) == S.DeleteProject(old(View()), id)
    {
      if id == T.DEFAULT_PROJECT {
        return T.Failed(T.InvalidId);
      }
      var own := S.RequestsOf(requests, id);
      var ids := BlobIdsOf(own);
      if id !in projects {
        return T.Failed(T.NotFound(id));
      }
      DropProject(id, ids);
      r := T.Done;
    }

    method DropProject(id: Id, ids: seq<Id>)
      requires TableOk(Table())
      modifies this
      ensures View() == old(View()).(tree := T.PruneProject(old(Tree()), id),
                                     requests := old(requests) - S.RequestsOf(old(requests), id) - S.Misfiled(old(View()), id),
                                     blobs := Release(old(Table()), multiset(ids)),
                                     books := books)
      ensures books == old(books).(leaked := old(books).leaked
                                             + S.BagOf(S.BodyColumn(old(requests)), S.Misfiled(old(View()), id)))
    {
      CascadeProject(id);
      ReleaseEach(ids);
    }

    /** What the foreign keys do when a project row goes: modules, collections and requests follow. */
    method CascadeProject(id: Id)
      modifies this`projects, this`modules, this`collections, this`requests, this`books
      ensures Tree() == T.PruneProject(old(Tree()), id)
      ensures requests == old(requests) - S.RequestsOf(old(requests), id) - S.Misfiled(old(View()), id)
      ensures books == old(books).(leaked := old(books).leaked
                                             + S.BagOf(S.BodyColumn(old(requests)), S.Misfiled(old(View()), id)))
    {
      CascadeProjectRequests(id);
      collections := collections - Cascade(collections, T.CollectionsOf(T.Tree(projects, modules, collections), id));
      modules := T.ModulesWithout(modules, id);
      projects := projects - {id};
    }

    method CascadeProjectRequests(id: Id)
      modifies this`requests, this`books
      ensures requests == old(requests) - S.RequestsOf(old(requests), id) - S.Misfiled(old(View()), id)
      ensures books == old(books).(leaked := old(books).leaked
                                             + S.BagOf(S.BodyColumn(old(requests)), S.Misfiled(old(View()), id)))
    {
      var gone := Cascade(collections, T.CollectionsOf(T.Tree(projects, modules, collections), id));
      var own := S.RequestsOf(requests, id);
      var misfiled := S.RequestsIn(requests, gone) - own;
      assert misfiled == S.Misfiled(View(), id);
      books := books.(leaked := books.leaked + S.BagOf(S.BodyColumn(requests), misfiled));
      requests := requests - own - misfiled;
    }
  }

  // ----- facts the methods use -----

  lemma RecordKeeps(s: S.Store, rec: S.ExecutionRecord, uuid: Id, uuid2: Id)
    requires S.StoreOk(s)
    ensures var ok := S.StoreOk(S.RecordExecution(s, rec, uuid, uuid2).store);
            if rec.responseBlob.None? then ok
            else ok <==>
              || rec.responseBlob.value in s.books.handles
              || S.Prepare(s.blobs, rec, uuid, uuid2).Err?
              || (rec.id in s.executions && rec.responseBlob.value !in s.blobs.rows)
  {
    if rec.responseBlob.None? {
      RecordExecutionLaw(s, rec, uuid, uuid2);
    } else {
      RecordKeepsExactly(s, rec, rec.responseBlob.value, uuid, uuid2);
    }
  }

  lemma PutFailsClean(t: BlobTable, data: Bytes, uuid: Id)
    ensures Blobs.PutBlob(t, data, uuid).result.Err? ==> Blobs.PutBlob(t, data, uuid).table == t
  {}

  lemma ExternalizeKeepsTable(t: BlobTable, e: Envelope, uuid: Id)
    requires TableOk(t)
    ensures Externalize(t, e, uuid).Ok? ==> TableOk(Externalize(t, e, uuid).value.table)
  {
    if IsLarge(e) {
      PutBlobKeeps(t, Body(e).value, uuid);
    }
  }

  /** Distinct subtree rows contribute disjoint requests, so each request is listed once. */
  lemma JoinNextRow(requests: map<Id, S.Row>, rows: seq<Id>, i: nat)
    requires i < |rows| && NoRepeats(rows)
    ensures S.BagOf(S.BodyColumn(requests), S.RequestsIn(requests, Listed(rows[..i + 1])))
         == S.BagOf(S.BodyColumn(requests), S.RequestsIn(requests, Listed(rows[..i])))
            + S.BagOf(S.BodyColumn(requests), S.RequestsIn(requests, {rows[i]}))
  {
    var before := S.RequestsIn(requests, Listed(rows[..i]));
    var here := S.RequestsIn(requests, {rows[i]});
    assert Listed(rows[..i + 1]) == Listed(rows[..i]) + {rows[i]} by {
      assert rows[..i + 1] == rows[..i] + [rows[i]];
    }
    assert S.RequestsIn(requests, Listed(rows[..i + 1])) == before + here;
    BagOfUnion(S.BodyColumn(requests), before, here);
  }

  lemma ReleaseBoth(t: BlobTable, a: Option<Id>, b: Option<Id>)
    requires TableOk(t)
    ensures TableOk(Release(t, S.Bag(a)))
    ensures Release(Release(t, S.Bag(a)), S.Bag(b)) == Release(t, S.Bag(a) + S.Bag(b))
  {
    ReleaseNothing(t);
    if a.Some? {
      ReleaseStep(t, a.value, S.Bag(b));
    } else {
      assert S.Bag(a) + S.Bag(b) == S.Bag(b);
    }
  }

  lemma MovedIsForest(cs: Collections, id: Id, name: string, parent: Option<Id>)
    requires IsForest(cs) && id in cs && T.RefuseMove(cs, id, parent).None?
    ensures IsForest(cs[id := cs[id].(name := name, parent := parent)])
  {
    ReparentKeepsForest(cs, id, parent);
    ForestDependsOnParents(Reparented(cs, id, parent), cs[id := cs[id].(name := name, parent := parent)]);
  }

  lemma StillBelow(cs: Collections, x: Id, n: nat, bound: nat)
    requires Up(cs, x, n).Some? && Up(cs, x, bound) == None
    ensures n < bound
  {
    if bound <= n {
      UpStaysNone(cs, x, bound, n);
    }
  }

  lemma NeverMeets(cs: Collections, x: Id, id: Id, n: nat)
    requires Up(cs, x, n) == None
    requires forall k: nat :: k < n ==> Up(cs, x, k) != Some(id)
    ensures !Under(cs, x, id)
  {
    forall k: nat ensures Up(cs, x, k) != Some(id) {
      if n <= k {
        UpStaysNone(cs, x, n, k);
      }
    }
  }

  ghost predicate NoRepeats(s: seq<Id>) {
    forall i, j :: 0 <= i < j < |s| ==> s[i] != s[j]
  }

  /**
   * Rows already listed and rows queued are distinct descendants of the start, the children of
   * every listed row are listed or queued, and every row but the start has its parent listed.
   */
  ghost predicate SubtreeInv(cs: Collections, id: Id, rows: seq<Id>, queue: seq<Id>) {
    NoRepeats(rows + queue) && Frontier(cs, id, Listed(rows), Listed(rows + queue))
  }

  ghost predicate Frontier(cs: Collections, id: Id, listed: set<Id>, all: set<Id>) {
    && listed <= all
    && id in all
    && (forall c :: c in all ==> c in cs && Under(cs, c, id))
    && (forall c :: c in all && c != id ==> cs[c].parent.Some? && cs[c].parent.value in listed)
    && Children(cs, listed) <= all
  }

  lemma SubtreeStart(cs: Collections, id: Id)
    requires id in cs
    ensures SubtreeInv(cs, id, [], [id])
  {
    assert [] + [id] == [id];
    assert Up(cs, id, 0) == Some(id);
  }

  lemma SubtreeStep(cs: Collections, id: Id, rows: seq<Id>, queue: seq<Id>, children: seq<Id>)
    requires IsForest(cs) && SubtreeInv(cs, id, rows, queue) && queue != []
    requires Listed(children) == Children(cs, {queue[0]}) && NoRepeats(children)
    ensures SubtreeInv(cs, id, rows + [queue[0]], queue[1..] + children)
  {
    var c := queue[0];
    var all := rows + queue;
    assert (rows + [c]) + (queue[1..] + children) == all + children by {
      assert queue == [c] + queue[1..];
    }
    ListedOnce(rows, queue);
    ListedAppend(rows, [c]);
    ListedAppend(rows, queue);
    ListedAppend(all, children);
    assert c in Listed(queue) && Listed([c]) == {c};
    FrontierStep(cs, id, Listed(rows), Listed(all), c);
    assert forall x :: x in children ==> x in Listed(children);
    assert forall x :: x in all ==> x in Listed(all);
    NoRepeatsAppend(all, children);
  }

  lemma ListedAppend(a: seq<Id>, b: seq<Id>)
    ensures Listed(a + b) == Listed(a) + Listed(b)
  {}

  /** Listing one queued row and queueing its children, none of which was met before. */
  lemma FrontierStep(cs: Collections, id: Id, listed: set<Id>, all: set<Id>, c: Id)
    requires IsForest(cs) && Frontier(cs, id, listed, all) && c in all && c !in listed
    ensures Frontier(cs, id, listed + {c}, all + Children(cs, {c}))
    ensures Children(cs, {c}) !! all
  {
    forall x | x in Children(cs, {c}) ensures x !in all && x in cs && Under(cs, x, id) {
      FreshChild(cs, id, listed, all, c, x);
    }
    assert Children(cs, listed + {c}) == Children(cs, listed) + Children(cs, {c});
  }

  lemma NoRepeatsAppend(a: seq<Id>, b: seq<Id>)
    requires NoRepeats(a) && NoRepeats(b) && forall x :: x in b ==> x !in a
    ensures NoRepeats(a + b)
  {
    var s := a + b;
    forall i, j | 0 <= i < j < |s| ensures s[i] != s[j] {
      if i < |a| <= j {
        assert s[j] == b[j - |a|];
        assert s[i] in a;
      }
    }
  }

  lemma ListedOnce(rows: seq<Id>, queue: seq<Id>)
    requires NoRepeats(rows + queue) && queue != []
    ensures queue[0] !in rows
  {
    var all := rows + queue;
    assert all[|rows|] == queue[0];
    forall i | 0 <= i < |rows| ensures rows[i] != queue[0] {
      assert all[i] == rows[i];
    }
  }

  /** A child of a queued row was neither listed nor queued before. */
  lemma FreshChild(cs: Collections, id: Id, listed: set<Id>, all: set<Id>, c: Id, x: Id)
    requires IsForest(cs) && Frontier(cs, id, listed, all) && c in all && c !in listed && x in Children(cs, {c})
    ensures x !in all && Under(cs, x, id)
  {
    var n: nat :| Up(cs, c, n) == Some(id);
    assert Up(cs, x, n + 1) == Up(cs, c, n);
    if x == id {
      NoCycle(cs, id, n + 1);
    }
  }

  lemma {:induction false} NoRepeatsFits(s: seq<Id>, bound: set<Id>)
    requires NoRepeats(s) && forall x :: x in s ==> x in bound
    ensures |s| <= |bound|
  {
    if s != [] {
      var last := s[|s| - 1];
      var rest := s[..|s| - 1];
      forall x | x in rest ensures x in bound - {last} {
        var i :| 0 <= i < |rest| && rest[i] == x;
        assert s[i] != last;
      }
      NoRepeatsFits(rest, bound - {last});
      assert last in s;
    }
  }

  lemma SubtreeRowsFit(cs: Collections, id: Id, rows: seq<Id>, queue: seq<Id>)
    requires SubtreeInv(cs, id, rows, queue)
    ensures |rows| <= |cs|
  {
    assert forall x :: x in rows + queue ==> x in Listed(rows + queue);
    NoRepeatsFits(rows + queue, cs.Keys);
  }

  lemma SubtreeEnd(cs: Collections, id: Id, rows: seq<Id>)
    requires SubtreeInv(cs, id, rows, [])
    ensures Listed(rows) == Cascade(cs, {id}) && NoRepeats(rows)
  {
    assert rows + [] == rows;
    var listed := Listed(rows);
    forall c ensures c in listed <==> c in Cascade(cs, {id}) {
      CascadeIsSubtree(cs, id, c);
      if Under(cs, c, id) {
        var n: nat :| Up(cs, c, n) == Some(id);
        ClosedHoldsDescendants(cs, listed, c, n);
      }
    }
  }
}
