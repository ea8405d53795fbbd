/**
 * Whole runs of the local store: the invariant holds in every reachable state, the counts are
 * exact for well-filed runs, and the deduplicating store refines a store of whole envelopes.
 */
module StoreRuns {
  import opened Base
  import opened Text
  import opened Forest
  import opened Tree
  import opened Envelope
  import opened Blobs
  import opened Store
  import opened StoreLaws

  /** One call of the store's interface; generated identifiers are arguments. */
  datatype Op =
    | OpCreateProject(id: Id, name: string)
    | OpCreateModule(id: Id, project: Id, name: string)
    | OpCreateCollection(id: Id, project: Id, requested: Option<Id>, parent: Option<Id>, name: string)
    | OpUpdateCollection(id: Id, name: string, parent: Option<Id>)
    | OpDeleteCollection(id: Id)
    | OpDeleteProject(id: Id)
    | OpSave(envelope: Envelope, project: Id, collection: Id, uuid: Id)
    | OpMove(request: Id, project: Id, collection: Id)
    | OpDeleteRequest(request: Id)
    | OpPut(data: Bytes, uuid: Id)
    | OpRecord(rec: ExecutionRecord, uuid: Id, uuid2: Id)

  function InitialStore(): Store {
    Store(InitialTree(), map[], map[], BlobTable(map[], map[]), Ledger(map[], multiset{}, multiset{}))
  }

  ghost function TreeAfter(t: Tree, op: Op): Tree
    requires IsTreeOp(op)
  {
    match op
    case OpCreateProject(id, name) => CreateProject(t, id, name).tree
    case OpCreateModule(id, project, name) => CreateModule(t, id, project, name).tree
    case OpCreateCollection(id, project, requested, parent, name) => CreateCollection(t, id, project, requested, parent, name).tree
    case OpUpdateCollection(id, name, parent) => UpdateCollection(t, id, name, parent).tree
  }

  ghost function Step(s: Store, op: Op): Store {
    match op
    case OpDeleteCollection(id) => DeleteCollection(s, id).store
    case OpDeleteProject(id) => DeleteProject(s, id).store
    case OpSave(e, project, collection, uuid) => SaveRequest(s, e, project, collection, uuid).store
    case OpMove(r, project, collection) => MoveRequest(s, r, project, collection).store
    case OpDeleteRequest(r) => DeleteRequest(s, r).store
    case OpPut(data, uuid) => PutForCaller(s, data, uuid).store
    case OpRecord(rec, uuid, uuid2) => RecordExecution(s, rec, uuid, uuid2).store
    case _ => s.(tree := TreeAfter(s.tree, op))
  }

  /** A caller may pass on only a blob it was handed. */
  ghost predicate Permitted(s: Store, op: Op) {
    op.OpRecord? ==> Bag(op.rec.responseBlob) <= s.books.handles
  }

  ghost function Run(s: Store, ops: seq<Op>): Store
    decreases |ops|
  {
    if ops == [] then s else Run(Step(s, ops[0]), ops[1..])
  }

  ghost predicate AllPermitted(s: Store, ops: seq<Op>)
    decreases |ops|
  {
    ops != [] ==> Permitted(s, ops[0]) && AllPermitted(Step(s, ops[0]), ops[1..])
  }

  // ----- the invariant holds in every reachable state -----

  predicate IsTreeOp(op: Op) {
    op.OpCreateProject? || op.OpCreateModule? || op.OpCreateCollection? || op.OpUpdateCollection?
  }

  lemma TreeAfterKeeps(t: Tree, op: Op)
    requires TreeOk(t) && IsTreeOp(op)
    ensures TreeOk(TreeAfter(t, op)) && Grows(t, TreeAfter(t, op))
  {
    match op
    case OpCreateProject(id, name) => CreateProjectKeeps(t, id, name);
    case OpCreateModule(id, project, name) => CreateModuleKeeps(t, id, project, name);
    case OpCreateCollection(id, project, requested, parent, name) =>
      CreateCollectionKeeps(t, id, project, requested, parent, name);
    case OpUpdateCollection(id, name, parent) => UpdateCollectionKeeps(t, id, name, parent);
  }

  lemma TreeStepLaw(s: Store, op: Op)
    requires StoreOk(s) && IsTreeOp(op)
    ensures StoreOk(s.(tree := TreeAfter(s.tree, op)))
    ensures Plain(s.(tree := TreeAfter(s.tree, op))) == Plain(s).(tree := TreeAfter(s.tree, op))
  {
    TreeAfterKeeps(s.tree, op);
    SwapTree(s, TreeAfter(s.tree, op));
  }

  lemma StepKeepsInvariant(s: Store, op: Op)
    requires StoreOk(s) && Permitted(s, op)
    ensures StoreOk(Step(s, op))
  {
    if IsTreeOp(op) {
      TreeStepLaw(s, op);
    } else if op.OpDeleteCollection? || op.OpDeleteProject? {
      CascadeStepKeeps(s, op);
    } else {
      RowStepKeeps(s, op);
    }
  }

  lemma CascadeStepKeeps(s: Store, op: Op)
    requires StoreOk(s) && (op.OpDeleteCollection? || op.OpDeleteProject?)
    ensures StoreOk(Step(s, op))
  {
    if op.OpDeleteCollection? {
      DeleteCollectionLaw(s, op.id);
    } else {
      DeleteProjectLaw(s, op.id);
    }
  }

  lemma RowStepKeeps(s: Store, op: Op)
    requires StoreOk(s) && Permitted(s, op)
    requires !IsTreeOp(op) && !op.OpDeleteCollection? && !op.OpDeleteProject?
    ensures StoreOk(Step(s, op))
  {
    hide StoreOk, SaveRequest, MoveRequest, DeleteRequest, PutForCaller, RecordExecution, Externalize, Prepare, Plain;
    match op
    case OpSave(e, project, collection, uuid) => SaveRequestLaw(s, e, project, collection, uuid);
    case OpMove(r, project, collection) => MoveRequestLaw(s, r, project, collection);
    case OpDeleteRequest(r) => DeleteRequestLaw(s, r);
    case OpPut(data, uuid) => PutForCallerLaw(s, data, uuid);
    case OpRecord(rec, uuid, uuid2) => RecordExecutionLaw(s, rec, uuid, uuid2);
  }

  lemma InitialStoreOk()
    ensures StoreOk(InitialStore())
  {
    var s := InitialStore();
    assert Digests(s.blobs.rows) == {};
    forall b ensures Holders(s, b) == 0 {
      assert Naming(BodyColumn(s.requests), b) == {};
      assert Naming(s.books.snapshots, b) == {};
      assert Naming(ResponseColumn(s.executions), b) == {};
    }
  }

  /**
   * In every reachable state the tree is a forest with matching modules, every stored body is
   * where its row says, and each blob is counted once per holder plus once per leak.
   */
  lemma {:induction false} RunKeepsInvariant(s: Store, ops: seq<Op>)
    requires StoreOk(s) && AllPermitted(s, ops)
    ensures StoreOk(Run(s, ops))
    decreases |ops|
  {
    if ops != [] {
      StepKeepsInvariant(s, ops[0]);
      RunKeepsInvariant(Step(s, ops[0]), ops[1..]);
    }
  }

  /** No blob is ever counted below its holders, and no held blob is ever missing. */
  lemma CountsNeverTooLow(ops: seq<Op>, b: Id)
    requires AllPermitted(InitialStore(), ops)
    ensures var s := Run(InitialStore(), ops);
            && RefCount(s.blobs, b) >= Holders(s, b)
            && (Holders(s, b) > 0 ==> b in s.blobs.rows && ReadBlob(s.blobs, b) == Ok(s.blobs.rows[b].digest.data))
  {
    InitialStoreOk();
    RunKeepsInvariant(InitialStore(), ops);
    var s := Run(InitialStore(), ops);
    assert RefCount(s.blobs, b) == Holders(s, b) + s.books.leaked[b] + multiset{}[b];
    if Holders(s, b) > 0 {
      ReadsBack(s.blobs, b);
    }
  }

  // ----- exact counts for well-filed runs -----

  /** Every request is filed in a collection of its own project. */
  ghost predicate Filed(s: Store) {
    forall r :: r in s.requests && s.requests[r].collection in s.tree.collections ==>
      s.tree.collections[s.requests[r].collection].project == s.requests[r].project
  }

  /** The one thing `save_request` does not check. */
  ghost predicate WellFiled(s: Store, op: Op) {
    op.OpSave? && op.collection in s.tree.collections ==> s.tree.collections[op.collection].project == op.project
  }

  ghost predicate AllWellFiled(s: Store, ops: seq<Op>)
    decreases |ops|
  {
    ops != [] ==> WellFiled(s, ops[0]) && AllWellFiled(Step(s, ops[0]), ops[1..])
  }

  /** Removing rows and whole projects keeps the rest well filed. */
  lemma PruningKeepsFiled(s: Store, s': Store)
    requires Filed(s)
    requires forall r :: r in s'.requests ==> r in s.requests && s'.requests[r] == s.requests[r]
    requires forall c :: c in s'.tree.collections ==> c in s.tree.collections && s'.tree.collections[c] == s.tree.collections[c]
    ensures Filed(s')
  {}

  lemma DeleteProjectKeepsFiled(s: Store, id: Id)
    requires StoreOk(s) && Filed(s)
    ensures Filed(DeleteProject(s, id).store) && DeleteProject(s, id).store.books.leaked == s.books.leaked
  {
    if id in s.tree.projects && id != DEFAULT_PROJECT {
      ProjectCascade(s.tree, id);
      assert Misfiled(s, id) == {};
      NoLeakExactly(s, id);
      PruningKeepsFiled(s, DeleteProject(s, id).store);
    }
  }

  lemma SaveKeepsFiled(s: Store, e: Envelope, project: Id, collection: Id, uuid: Id)
    requires StoreOk(s) && Filed(s) && WellFiled(s, OpSave(e, project, collection, uuid))
    ensures Filed(SaveRequest(s, e, project, collection, uuid).store)
    ensures SaveRequest(s, e, project, collection, uuid).store.books == s.books
  {
    hide Externalize, Release, StoreOk;
  }

  lemma TreeStepKeepsFiled(s: Store, op: Op)
    requires StoreOk(s) && Filed(s) && IsTreeOp(op)
    ensures Filed(s.(tree := TreeAfter(s.tree, op)))
  {
    TreeAfterKeeps(s.tree, op);
  }

  lemma MoveKeepsFiled(s: Store, r: Id, project: Id, collection: Id)
    requires Filed(s)
    ensures Filed(MoveRequest(s, r, project, collection).store)
    ensures MoveRequest(s, r, project, collection).store.books == s.books
  {}

  lemma StepKeepsFiled(s: Store, op: Op)
    requires StoreOk(s) && Permitted(s, op) && Filed(s) && WellFiled(s, op)
    ensures Filed(Step(s, op)) && Step(s, op).books.leaked == s.books.leaked
  {
    if IsTreeOp(op) {
      TreeStepKeepsFiled(s, op);
    } else if op.OpDeleteProject? {
      DeleteProjectKeepsFiled(s, op.id);
    } else if op.OpDeleteCollection? || op.OpDeleteRequest? {
      PruningKeepsFiled(s, Step(s, op));
    } else {
      WriteStepKeepsFiled(s, op);
    }
  }

  lemma RecordKeepsFiled(s: Store, rec: ExecutionRecord, uuid: Id, uuid2: Id)
    requires Filed(s)
    ensures Filed(RecordExecution(s, rec, uuid, uuid2).store)
    ensures RecordExecution(s, rec, uuid, uuid2).store.books.leaked == s.books.leaked
  {
    var s' := RecordExecution(s, rec, uuid, uuid2).store;
    assert s'.requests == s.requests && s'.tree == s.tree;
  }

  lemma WriteStepKeepsFiled(s: Store, op: Op)
    requires StoreOk(s) && Filed(s) && WellFiled(s, op)
    requires op.OpSave? || op.OpMove? || op.OpPut? || op.OpRecord?
    ensures Filed(Step(s, op)) && Step(s, op).books.leaked == s.books.leaked
  {
    hide StoreOk, SaveRequest, MoveRequest, RecordExecution, PutBlob;
    if op.OpSave? {
      SaveKeepsFiled(s, op.envelope, op.project, op.collection, op.uuid);
    } else if op.OpMove? {
      MoveKeepsFiled(s, op.request, op.project, op.collection);
    } else if op.OpRecord? {
      RecordKeepsFiled(s, op.rec, op.uuid, op.uuid2);
    } else {
      assert Step(s, op).requests == s.requests && Step(s, op).tree == s.tree;
    }
  }

  lemma {:induction false} WellFiledRunLeaksNothing(s: Store, ops: seq<Op>)
    requires StoreOk(s) && Filed(s) && AllPermitted(s, ops) && AllWellFiled(s, ops)
    ensures Run(s, ops).books.leaked == s.books.leaked
    decreases |ops|
  {
    if ops != [] {
      StepKeepsInvariant(s, ops[0]);
      StepKeepsFiled(s, ops[0]);
      WellFiledRunLeaksNothing(Step(s, ops[0]), ops[1..]);
    }
  }

  /** When requests are filed in their own project's collections, counts equal holders exactly. */
  lemma CountsExact(ops: seq<Op>, b: Id)
    requires AllPermitted(InitialStore(), ops) && AllWellFiled(InitialStore(), ops)
    ensures var s := Run(InitialStore(), ops); RefCount(s.blobs, b) == Holders(s, b)
  {
    InitialStoreOk();
    RunKeepsInvariant(InitialStore(), ops);
    WellFiledRunLeaksNothing(InitialStore(), ops);
    var s := Run(InitialStore(), ops);
    assert RefCount(s.blobs, b) == Holders(s, b) + s.books.leaked[b] + multiset{}[b];
  }

  // ----- refinement -----

  /** Identifiers drawn for new blobs are not already in use. */
  ghost predicate FreshIds(s: Store, op: Op) {
    match op
    case OpSave(_, _, _, uuid) => uuid !in s.blobs.rows
    case OpRecord(_, uuid, uuid2) => uuid !in s.blobs.rows && uuid2 !in s.blobs.rows && uuid != uuid2
    case _ => true
  }

  ghost predicate AllFresh(s: Store, ops: seq<Op>)
    decreases |ops|
  {
    ops != [] ==> FreshIds(s, ops[0]) && AllFresh(Step(s, ops[0]), ops[1..])
  }

  ghost function PlainDeleteCollection(p: PlainStore, id: Id): PlainStore {
    if id == DEFAULT_COLLECTION || id !in p.tree.collections then p
    else p.(tree := PruneCollection(p.tree, id),
            requests := map r | r in p.requests && !Under(p.tree.collections, p.requests[r].collection, id) :: p.requests[r])
  }

  function PlainDeleteProject(p: PlainStore, id: Id): PlainStore {
    if id == DEFAULT_PROJECT || id !in p.tree.projects then p
    else p.(tree := PruneProject(p.tree, id),
            requests := map r | r in p.requests && p.requests[r].project != id
                          && p.requests[r].collection !in CollectionsOf(p.tree, id) :: p.requests[r])
  }

  /** The reference store: whole envelopes in a map, no blobs and no counts. */
  ghost function PlainStep(p: PlainStore, op: Op): PlainStore {
    match op
    case OpDeleteCollection(id) => PlainDeleteCollection(p, id)
    case OpDeleteProject(id) => PlainDeleteProject(p, id)
    case OpSave(e, project, collection, _) =>
      if project !in p.tree.projects || collection !in p.tree.collections then p
      else PlainPut(p, e.id, PlainRow(project, collection, Sanitize(e)))
    case OpMove(r, project, collection) =>
      if collection !in p.tree.collections || p.tree.collections[collection].project != project then p
      else PlainMove(p, r, project, collection)
    case OpDeleteRequest(r) => p.(requests := p.requests - {r})
    case OpPut(_, _) => p
    case OpRecord(rec, _, _) => if rec.id in p.snapshots then p else PlainRecord(p, rec.id, SanitizedSnapshot(rec))
    case _ => p.(tree := TreeAfter(p.tree, op))
  }

  ghost function PlainRun(p: PlainStore, ops: seq<Op>): PlainStore
    decreases |ops|
  {
    if ops == [] then p else PlainRun(PlainStep(p, ops[0]), ops[1..])
  }

  lemma DeleteCollectionRefines(s: Store, id: Id)
    requires StoreOk(s)
    ensures Plain(DeleteCollection(s, id).store) == PlainDeleteCollection(Plain(s), id)
  {
    if id in s.tree.collections && id != DEFAULT_COLLECTION {
      DeleteCollectionStage(s, id);
      CollectionRows(s, id);
    }
  }

  lemma CollectionRows(s: Store, id: Id)
    requires id in s.tree.collections && id != DEFAULT_COLLECTION
    ensures Plain(s).requests - RequestsIn(s.requests, Cascade(s.tree.collections, {id}))
            == PlainDeleteCollection(Plain(s), id).requests
  {
    var left := Plain(s).requests - RequestsIn(s.requests, Cascade(s.tree.collections, {id}));
    var right := PlainDeleteCollection(Plain(s), id).requests;
    forall r ensures r in left <==> r in right {
      if r in s.requests {
        assert Plain(s).requests[r].collection == s.requests[r].collection;
        CascadeIsSubtree(s.tree.collections, id, s.requests[r].collection);
      }
    }
  }

  lemma DeleteProjectRefines(s: Store, id: Id)
    requires StoreOk(s)
    ensures Plain(DeleteProject(s, id).store) == PlainDeleteProject(Plain(s), id)
  {
    DeleteProjectLaw(s, id);
    if id in s.tree.projects && id != DEFAULT_PROJECT {
      ProjectCascade(s.tree, id);
      ProjectRows(s, id);
    }
  }

  lemma ProjectRows(s: Store, id: Id)
    requires Cascade(s.tree.collections, CollectionsOf(s.tree, id)) == CollectionsOf(s.tree, id)
    requires id in s.tree.projects && id != DEFAULT_PROJECT
    ensures Plain(s).requests - RequestsOf(s.requests, id) - Misfiled(s, id) == PlainDeleteProject(Plain(s), id).requests
  {
    var left := Plain(s).requests - RequestsOf(s.requests, id) - Misfiled(s, id);
    var right := PlainDeleteProject(Plain(s), id).requests;
    forall r ensures r in left <==> r in right {
      if r in s.requests {
        assert Plain(s).requests[r].collection == s.requests[r].collection;
        assert Plain(s).requests[r].project == s.requests[r].project;
      }
    }
  }

  /** With unused identifiers nothing can fail before the insert itself. */
  lemma FreshPrepares(t: BlobTable, rec: ExecutionRecord, uuid: Id, uuid2: Id)
    requires uuid !in t.rows && uuid2 !in t.rows && uuid != uuid2
    ensures Prepare(t, rec, uuid, uuid2).Ok?
  {
    var x := TakeSnapshot(t, rec.snapshot, uuid);
    assert x.Ok? && uuid2 !in x.value.table.rows;
  }

  lemma RecordRefines(s: Store, rec: ExecutionRecord, uuid: Id, uuid2: Id)
    requires StoreOk(s) && Bag(rec.responseBlob) <= s.books.handles && FreshIds(s, OpRecord(rec, uuid, uuid2))
    ensures Plain(RecordExecution(s, rec, uuid, uuid2).store)
            == if rec.id in Plain(s).snapshots then Plain(s) else PlainRecord(Plain(s), rec.id, SanitizedSnapshot(rec))
  {
    RecordExecutionLaw(s, rec, uuid, uuid2);
    FreshPrepares(s.blobs, rec, uuid, uuid2);
  }

  lemma SaveRefines(s: Store, e: Envelope, project: Id, collection: Id, uuid: Id)
    requires StoreOk(s) && uuid !in s.blobs.rows
    ensures Plain(SaveRequest(s, e, project, collection, uuid).store) == PlainStep(Plain(s), OpSave(e, project, collection, uuid))
  {
    SaveRequestLaw(s, e, project, collection, uuid);
    assert Externalize(s.blobs, Sanitize(e), uuid).Ok?;
  }

  lemma StepRefines(s: Store, op: Op)
    requires StoreOk(s) && Permitted(s, op) && FreshIds(s, op)
    ensures Plain(Step(s, op)) == PlainStep(Plain(s), op)
  {
    if op.OpSave? {
      SaveRefines(s, op.envelope, op.project, op.collection, op.uuid);
    } else if op.OpMove? {
      MoveRequestLaw(s, op.request, op.project, op.collection);
    } else {
      OtherStepRefines(s, op);
    }
  }

  lemma OtherStepRefines(s: Store, op: Op)
    requires StoreOk(s) && Permitted(s, op) && FreshIds(s, op) && !op.OpSave? && !op.OpMove?
    ensures Plain(Step(s, op)) == PlainStep(Plain(s), op)
  {
    hide StoreOk, DeleteCollection, DeleteProject, RecordExecution, PutForCaller;
    match op
    case OpDeleteCollection(id) => DeleteCollectionRefines(s, id);
    case OpDeleteProject(id) => DeleteProjectRefines(s, id);
    case OpDeleteRequest(r) => DeleteRequestLaw(s, r);
    case OpPut(data, uuid) => PutForCallerLaw(s, data, uuid);
    case OpRecord(rec, uuid, uuid2) => RecordRefines(s, rec, uuid, uuid2);
    case _ => TreeStepLaw(s, op);
  }

  /** Deduplication is invisible: after any run the store stands for what the plain store holds. */
  lemma {:induction false} RunRefines(s: Store, ops: seq<Op>)
    requires StoreOk(s) && AllPermitted(s, ops) && AllFresh(s, ops)
    ensures Plain(Run(s, ops)) == PlainRun(Plain(s), ops)
    decreases |ops|
  {
    if ops != [] {
      StepRefines(s, ops[0]);
      StepKeepsInvariant(s, ops[0]);
      RunRefines(Step(s, ops[0]), ops[1..]);
    }
  }

  /**
   * After any run, reading a request returns the last envelope saved under its id, exactly when
   * that envelope is large, or its body does not start with the blob marker, or names itself.
   */
  lemma GetReturnsLastSaved(ops: seq<Op>, r: Id)
    requires AllPermitted(InitialStore(), ops) && AllFresh(InitialStore(), ops)
    ensures var s := Run(InitialStore(), ops);
            var p := PlainRun(Plain(InitialStore()), ops);
            && (r !in p.requests ==> GetRequest(s, r) == Ok(None))
            && (r in p.requests ==>
                  var e := p.requests[r].envelope;
                  GetRequest(s, r) == Ok(Some(e)) <==>
                  || IsLarge(e) || MarkedBlob(e).None? || ReadBlob(s.blobs, MarkedBlob(e).value) == Ok(Body(e).value))
  {
    InitialStoreOk();
    RunKeepsInvariant(InitialStore(), ops);
    RunRefines(InitialStore(), ops);
    var s := Run(InitialStore(), ops);
    if r in s.requests {
      var row := s.requests[r];
      HydrateExactly(s.blobs, row.envelope, row.bodyBlob);
      assert PlainRun(Plain(InitialStore()), ops).requests[r] == PlainRequest(s.blobs, row);
    }
  }

  /**
   * After any run, an execution's snapshot reads back as recorded exactly when there is none, or its
   * body is large, does not begin with the blob marker, or names itself.
   */
  lemma SnapshotReadsBack(ops: seq<Op>, id: Id)
    requires AllPermitted(InitialStore(), ops) && AllFresh(InitialStore(), ops)
    ensures var s := Run(InitialStore(), ops);
            var p := PlainRun(Plain(InitialStore()), ops);
            && (id !in p.snapshots ==> GetExecution(s, id) == Ok(None))
            && (id in p.snapshots ==> (Shows(s, id, p.snapshots[id]) <==> Readable(s.blobs, p.snapshots[id])))
  {
    InitialStoreOk();
    RunKeepsInvariant(InitialStore(), ops);
    RunRefines(InitialStore(), ops);
    if id in Run(InitialStore(), ops).executions {
      SnapshotHydrates(Run(InitialStore(), ops), id);
    }
  }

  predicate Shows(s: Store, id: Id, snapshot: Option<Envelope>) {
    GetExecution(s, id).Ok? && GetExecution(s, id).value.Some? && GetExecution(s, id).value.value.0 == snapshot
  }

  predicate Readable(t: BlobTable, snapshot: Option<Envelope>) {
    || snapshot.None? || IsLarge(snapshot.value) || MarkedBlob(snapshot.value).None?
    || ReadBlob(t, MarkedBlob(snapshot.value).value) == Ok(Body(snapshot.value).value)
  }

  lemma SnapshotHydrates(s: Store, id: Id)
    requires TableOk(s.blobs) && SnapshotsFit(s) && id in s.executions
    ensures Shows(s, id, PlainSnapshot(s, id)) <==> Readable(s.blobs, PlainSnapshot(s, id))
  {
    if s.executions[id].snapshot.Some? {
      if id in s.books.snapshots {
        var b := s.books.snapshots[id];
        assert MarkedBlob(s.executions[id].snapshot.value) == Some(b);
        ReadsBack(s.blobs, b);
      } else {
        HydrateExactly(s.blobs, s.executions[id].snapshot.value, None);
      }
    }
  }

  // ----- a run that leaks -----

  /** Four calls: a project, a collection in it, a large request of another project filed there, and the project's end. */
  function LeakingRun(p: Id, c: Id, name: string, e: Envelope, uuid: Id): seq<Op> {
    [OpCreateProject(p, name), OpCreateCollection(c, p, None, None, name), OpSave(e, DEFAULT_PROJECT, c, uuid), OpDeleteProject(p)]
  }

  /** A project with a collection in it, made from nothing. */
  lemma ProjectMade(p: Id, c: Id, name: string)
    requires p != DEFAULT_PROJECT && c != DEFAULT_COLLECTION && Trim(name) != ""
    ensures var t := CreateCollection(CreateProject(InitialTree(), p, name).tree, c, p, None, None, name).tree;
            && p in t.projects && DEFAULT_PROJECT in t.projects
            && c in t.collections && t.collections[c].project == p
  {
    var t := CreateProject(InitialTree(), p, name).tree;
    assert |DEFAULT_MODULE_PREFIX + p| > |DEFAULT_MODULE|;
    assert IsDefaultModule(t, p, DEFAULT_MODULE_PREFIX + p);
  }

  /** A large request saved in a store without blobs has its body in one. */
  lemma LargeSaved(s: Store, e: Envelope, project: Id, collection: Id, uuid: Id)
    requires s.blobs.rows == map[] && project in s.tree.projects && collection in s.tree.collections && IsLarge(Sanitize(e))
    ensures var saved := SaveRequest(s, e, project, collection, uuid).store;
            && e.id in saved.requests && saved.requests[e.id].bodyBlob.Some?
            && saved.requests[e.id].project == project && saved.requests[e.id].collection == collection
            && saved.tree == s.tree && saved.books == s.books
  {
    hide Release, IsLarge;
    assert Externalize(s.blobs, Sanitize(e), uuid).Ok? && Externalize(s.blobs, Sanitize(e), uuid).value.blob.Some?;
    hide Externalize;
  }

  /** Deleting a project in whose collection a request of another project keeps its body. */
  lemma MisfiledLeaks(s: Store, p: Id, r: Id)
    requires StoreOk(s) && p in s.tree.projects && p != DEFAULT_PROJECT && s.books.leaked == multiset{}
    requires r in s.requests && s.requests[r].bodyBlob.Some? && s.requests[r].project != p
    requires s.requests[r].collection in CollectionsOf(s.tree, p)
    ensures DeleteProject(s, p).store.books.leaked != multiset{}
  {
    NoLeakExactly(s, p);
    assert TreeOk(s.tree);
    ProjectCascade(s.tree, p);
    hide StoreOk, TreeOk, DeleteProject, Cascade;
    assert r in Misfiled(s, p);
  }

  lemma RunFour(s: Store, a: Op, b: Op, c: Op, d: Op)
    ensures Run(s, [a, b, c, d]) == Step(Step(Step(Step(s, a), b), c), d)
    ensures AllPermitted(s, [a, b, c, d]) <==>
            Permitted(s, a) && Permitted(Step(s, a), b) && Permitted(Step(Step(s, a), b), c) && Permitted(Step(Step(Step(s, a), b), c), d)
  {
    hide Step, Permitted;
    var s1 := Step(s, a);
    var s2 := Step(s1, b);
    var s3 := Step(s2, c);
    assert [a, b, c, d][1..] == [b, c, d] && [b, c, d][1..] == [c, d] && [c, d][1..] == [d] && [d][1..] == [];
    assert Run(s3, [d]) == Step(s3, d) && Run(s2, [c, d]) == Run(s3, [d]) && Run(s1, [b, c, d]) == Run(s2, [c, d]);
    assert AllPermitted(Step(s3, d), []);
    assert AllPermitted(s3, [d]) <==> Permitted(s3, d);
    assert AllPermitted(s2, [c, d]) <==> Permitted(s2, c) && Permitted(s3, d);
    assert AllPermitted(s1, [b, c, d]) <==> Permitted(s1, b) && Permitted(s2, c) && Permitted(s3, d);
  }

  /** Leaks do happen: for every choice of names some blob ends up counted above its holders. */
  lemma LeakingRunLeaks(p: Id, c: Id, name: string, e: Envelope, uuid: Id)
    requires p != DEFAULT_PROJECT && c != DEFAULT_COLLECTION && Trim(name) != "" && IsLarge(Sanitize(e))
    ensures var ops := LeakingRun(p, c, name, e, uuid);
            && AllPermitted(InitialStore(), ops)
            && exists b :: RefCount(Run(InitialStore(), ops).blobs, b) > Holders(Run(InitialStore(), ops), b)
  {
    var ops := LeakingRun(p, c, name, e, uuid);
    RunFour(InitialStore(), ops[0], ops[1], ops[2], ops[3]);
    ProjectMade(p, c, name);
    var t := CreateCollection(CreateProject(InitialTree(), p, name).tree, c, p, None, None, name).tree;
    var s2 := InitialStore().(tree := t);
    hide CreateCollection, CreateProject, Run, AllPermitted, IsLarge;
    LargeSaved(s2, e, DEFAULT_PROJECT, c, uuid);
    hide SaveRequest;
    assert Step(Step(InitialStore(), ops[0]), ops[1]) == s2;
    LeakingRunEnds(ops, s2, p, e.id);
  }

  lemma LeakingRunEnds(ops: seq<Op>, s2: Store, p: Id, r: Id)
    requires |ops| == 4 && AllPermitted(InitialStore(), ops) && Step(Step(InitialStore(), ops[0]), ops[1]) == s2
    requires ops[3] == OpDeleteProject(p) && p != DEFAULT_PROJECT
    requires var s3 := Step(s2, ops[2]);
             && p in s3.tree.projects && s3.books.leaked == multiset{}
             && r in s3.requests && s3.requests[r].bodyBlob.Some? && s3.requests[r].project != p
             && s3.requests[r].collection in CollectionsOf(s3.tree, p)
    ensures exists b :: RefCount(Run(InitialStore(), ops).blobs, b) > Holders(Run(InitialStore(), ops), b)
  {
    hide Run, Step, StoreOk, AllPermitted, Holders, Permitted, InitialStore;
    var s3 := Step(s2, ops[2]);
    InitialStoreOk();
    assert ops == [ops[0], ops[1], ops[2], ops[3]];
    RunFour(InitialStore(), ops[0], ops[1], ops[2], ops[3]);
    StepKeepsInvariant(InitialStore(), ops[0]);
    StepKeepsInvariant(Step(InitialStore(), ops[0]), ops[1]);
    StepKeepsInvariant(s2, ops[2]);
    MisfiledLeaks(s3, p, r);
    StepKeepsInvariant(s3, ops[3]);
    var s := Step(s3, ops[3]);
    ProjectStep(s3, p);
    var b :| b in s.books.leaked;
    LeakCounts(s, b);
  }

  lemma ProjectStep(s: Store, p: Id)
    ensures Step(s, OpDeleteProject(p)) == DeleteProject(s, p).store
  {}

  lemma LeakCounts(s: Store, b: Id)
    requires StoreOk(s) && b in s.books.leaked
    ensures RefCount(s.blobs, b) > Holders(s, b)
  {
    CountsAgree(s, b);
  }

  // ----- no credentials at rest -----

  /** No request row and no snapshot holds a credential. */
  ghost predicate Credless(s: Store) {
    && (forall r :: r in s.requests ==> NoCredentials(s.requests[r].envelope))
    && (forall e :: e in s.executions && s.executions[e].snapshot.Some? ==> NoCredentials(s.executions[e].snapshot.value))
  }

  lemma ExternalizedCredless(t: BlobTable, e: Envelope, uuid: Id)
    ensures Externalize(t, Sanitize(e), uuid).Ok? ==> NoCredentials(Externalize(t, Sanitize(e), uuid).value.envelope)
  {
    SanitizedHasNoCredentials(e);
    hide NoCredentials, Sanitize, PutBlob, IsLarge;
    var c := Sanitize(e);
    forall body: Bytes ensures NoCredentials(WithBody(c, body)) {
      WithBodyHasNoCredentials(c, body);
    }
  }

  lemma SaveCredless(s: Store, e: Envelope, project: Id, collection: Id, uuid: Id)
    requires Credless(s)
    ensures Credless(SaveRequest(s, e, project, collection, uuid).store)
  {
    ExternalizedCredless(s.blobs, e, uuid);
    hide NoCredentials, Externalize, Sanitize, Release;
  }

  lemma RecordCredless(s: Store, rec: ExecutionRecord, uuid: Id, uuid2: Id)
    requires Credless(s)
    ensures Credless(RecordExecution(s, rec, uuid, uuid2).store)
  {
    if rec.snapshot.Some? {
      ExternalizedCredless(s.blobs, rec.snapshot.value, uuid);
    }
    hide NoCredentials, Externalize, Sanitize, Release, PutBlob, CharPrefix;
  }

  /** Rows that stay, wherever they are filed, stay credless. */
  lemma FewerCredless(s: Store, s': Store)
    requires Credless(s) && s'.executions == s.executions
    requires forall r :: r in s'.requests ==> r in s.requests && s'.requests[r].envelope == s.requests[r].envelope
    ensures Credless(s')
  {
    hide NoCredentials;
  }

  lemma StepCredless(s: Store, op: Op)
    requires Credless(s)
    ensures Credless(Step(s, op))
  {
    hide Credless, Release, PutBlob, Cascade;
    match op
    case OpSave(e, project, collection, uuid) => SaveCredless(s, e, project, collection, uuid);
    case OpRecord(rec, uuid, uuid2) => RecordCredless(s, rec, uuid, uuid2);
    case OpDeleteCollection(_) => FewerCredless(s, Step(s, op));
    case OpDeleteProject(_) => FewerCredless(s, Step(s, op));
    case OpMove(_, _, _) => FewerCredless(s, Step(s, op));
    case OpDeleteRequest(_) => FewerCredless(s, Step(s, op));
    case OpPut(_, _) => FewerCredless(s, Step(s, op));
    case _ => FewerCredless(s, Step(s, op));
  }

  lemma {:induction false} RunCredless(s: Store, ops: seq<Op>)
    requires Credless(s)
    ensures Credless(Run(s, ops))
    decreases |ops|
  {
    if ops != [] {
      StepCredless(s, ops[0]);
      RunCredless(Step(s, ops[0]), ops[1..]);
    }
  }

  /**
   * After any run at all, no row and no snapshot holds a token, a runtime secret or a header named like
   * a credential, and none is ever read back.
   */
  lemma NoCredentialsAtRest(ops: seq<Op>, id: Id)
    ensures var s := Run(InitialStore(), ops);
            && Credless(s)
            && (GetRequest(s, id).Ok? && GetRequest(s, id).value.Some? ==> NoCredentials(GetRequest(s, id).value.value))
            && (GetExecution(s, id).Ok? && GetExecution(s, id).value.Some? && GetExecution(s, id).value.value.0.Some? ==>
                  NoCredentials(GetExecution(s, id).value.value.0.value))
  {
    var s := Run(InitialStore(), ops);
    RunCredless(InitialStore(), ops);
    hide NoCredentials, Hydrate, Run, InitialStore, ReadBlob;
    if id in s.requests {
      HydrateCredless(s.blobs, s.requests[id].envelope, s.requests[id].bodyBlob);
    }
    if id in s.executions && s.executions[id].snapshot.Some? {
      HydrateCredless(s.blobs, s.executions[id].snapshot.value, None);
    }
  }

  lemma HydrateCredless(t: BlobTable, e: Envelope, blob: Option<Id>)
    requires NoCredentials(e)
    ensures Hydrate(t, e, blob).Ok? ==> NoCredentials(Hydrate(t, e, blob).value)
  {
    forall body: Bytes ensures NoCredentials(WithBody(e, body)) {
      WithBodyHasNoCredentials(e, body);
    }
    hide NoCredentials, WithBody, ReadBlob;
  }
}
