/**
 * The whole local store as a value: tables, blobs and a ledger of who holds which blob. The
 * operations are functions from store to store; the accounting law says that every blob's count
 * is the number of its holders plus the references known to have leaked.
 */
module Store {
  import opened Base
  import opened Forest
  import opened Tree
  import opened Envelope
  import opened Blobs

  datatype Row = Row(project: Id, collection: Id, envelope: Envelope, bodyBlob: Option<Id>)

  datatype Execution = Execution(snapshot: Option<Envelope>, preview: Option<Bytes>, responseBlob: Option<Id>)

  /**
   * Bookkeeping that no table records: the blob each execution snapshot took, the blobs callers
   * were handed by `put_blob` and have not passed on, and references that were never released.
   */
  datatype Ledger = Ledger(snapshots: map<Id, Id>, handles: multiset<Id>, leaked: multiset<Id>)

  datatype Store = Store(tree: Tree, requests: map<Id, Row>, executions: map<Id, Execution>,
                         blobs: BlobTable, books: Ledger)

  datatype ExecutionRecord = ExecutionRecord(id: Id, snapshot: Option<Envelope>, preview: Option<Bytes>,
                                             responseBlob: Option<Id>)

  // ----- who holds what -----

  function BodyColumn(requests: map<Id, Row>): map<Id, Id> {
    map r | r in requests && requests[r].bodyBlob.Some? :: requests[r].bodyBlob.value
  }

  function ResponseColumn(executions: map<Id, Execution>): map<Id, Id> {
    map e | e in executions && executions[e].responseBlob.Some? :: executions[e].responseBlob.value
  }

  /** The rows of a column that name `b`. */
  function Naming(column: map<Id, Id>, b: Id): set<Id> {
    set k | k in column && column[k] == b
  }

  function Holders(s: Store, b: Id): nat {
    |Naming(BodyColumn(s.requests), b)| + |Naming(s.books.snapshots, b)|
    + |Naming(ResponseColumn(s.executions), b)| + s.books.handles[b]
  }

  /** The counts match the holders, the leaks and the references still owed to `owed`. */
  ghost predicate Accounted(s: Store, owed: multiset<Id>) {
    && TableOk(s.blobs)
    && forall b :: RefCount(s.blobs, b) == Holders(s, b) + s.books.leaked[b] + owed[b]
  }

  lemma NamingInsert(column: map<Id, Id>, k: Id, v: Id, b: Id)
    ensures |Naming(column[k := v], b)| == |Naming(column - {k}, b)| + (if v == b then 1 else 0)
  {
    if v == b {
      assert Naming(column[k := v], b) == Naming(column - {k}, b) + {k};
    } else {
      assert Naming(column[k := v], b) == Naming(column - {k}, b);
    }
  }

  lemma NamingRemove(column: map<Id, Id>, gone: set<Id>, b: Id)
    ensures |Naming(column - gone, b)| == |Naming(column, b)| - |Naming(column, b) * gone|
  {
    assert Naming(column - gone, b) == Naming(column, b) - (Naming(column, b) * gone);
  }

  ghost predicate IsBag(bag: multiset<Id>, column: map<Id, Id>, keys: set<Id>) {
    forall b :: bag[b] == |Naming(column, b) * keys|
  }

  /** The bag of values a column holds at the keys in `keys`. */
  ghost function BagOf(column: map<Id, Id>, keys: set<Id>): (bag: multiset<Id>)
    ensures IsBag(bag, column, keys)
  {
    BagExists(column, keys);
    var bag: multiset<Id> :| IsBag(bag, column, keys);
    bag
  }

  lemma {:induction false} BagExists(column: map<Id, Id>, keys: set<Id>)
    ensures exists bag: multiset<Id> :: IsBag(bag, column, keys)
    decreases keys
  {
    if keys == {} {
      assert IsBag(multiset{}, column, keys);
    } else {
      var k :| k in keys;
      BagExists(column, keys - {k});
      var rest: multiset<Id> :| IsBag(rest, column, keys - {k});
      var bag := if k in column then rest + multiset{column[k]} else rest;
      forall b ensures bag[b] == |Naming(column, b) * keys| {
        if k in column {
          BagStep(column, keys, k, b);
        } else {
          assert Naming(column, b) * keys == Naming(column, b) * (keys - {k});
        }
      }
      assert IsBag(bag, column, keys);
    }
  }

  lemma BagStep(column: map<Id, Id>, keys: set<Id>, k: Id, b: Id)
    requires k in keys && k in column
    ensures |Naming(column, b) * keys| == |Naming(column, b) * (keys - {k})| + (if column[k] == b then 1 else 0)
  {
    if column[k] == b {
      assert Naming(column, b) * keys == Naming(column, b) * (keys - {k}) + {k};
    } else {
      assert Naming(column, b) * keys == Naming(column, b) * (keys - {k});
    }
  }

  function Bag(blob: Option<Id>): multiset<Id> {
    if blob.Some? then multiset{blob.value} else multiset{}
  }

  // ----- the invariant -----

  ghost predicate RowsFit(s: Store) {
    forall r :: r in s.requests ==>
      && s.requests[r].project in s.tree.projects
      && s.requests[r].collection in s.tree.collections
      && StoredOk(s.blobs, s.requests[r].envelope, s.requests[r].bodyBlob)
  }

  function SnapshotBlob(s: Store, e: Id): Option<Id> {
    if e in s.books.snapshots then Some(s.books.snapshots[e]) else None
  }

  ghost predicate SnapshotsFit(s: Store) {
    && s.books.snapshots.Keys <= s.executions.Keys
    && forall e :: e in s.executions ==>
         if s.executions[e].snapshot.None? then e !in s.books.snapshots
         else StoredOk(s.blobs, s.executions[e].snapshot.value, SnapshotBlob(s, e))
  }

  ghost predicate Layout(s: Store) {
    RowsFit(s) && SnapshotsFit(s)
  }

  ghost predicate StoreOk(s: Store) {
    TreeOk(s.tree) && Layout(s) && Accounted(s, multiset{})
  }

  // ----- what the store stands for -----

  datatype PlainRow = PlainRow(project: Id, collection: Id, envelope: Envelope)

  /** The same store without deduplication: whole envelopes, no blobs. */
  datatype PlainStore = PlainStore(tree: Tree, requests: map<Id, PlainRow>, snapshots: map<Id, Option<Envelope>>)

  function PlainRequest(t: BlobTable, row: Row): PlainRow {
    PlainRow(row.project, row.collection, Original(t, row.envelope, row.bodyBlob))
  }

  function PlainSnapshot(s: Store, e: Id): Option<Envelope>
    requires e in s.executions
  {
    if s.executions[e].snapshot.None? then None
    else Some(Original(s.blobs, s.executions[e].snapshot.value, SnapshotBlob(s, e)))
  }

  function Plain(s: Store): PlainStore {
    PlainStore(s.tree,
               map r | r in s.requests :: PlainRequest(s.blobs, s.requests[r]),
               map e | e in s.executions :: PlainSnapshot(s, e))
  }

  /** Filing a whole envelope in the plain store. */
  function PlainPut(p: PlainStore, r: Id, row: PlainRow): PlainStore {
    p.(requests := p.requests[r := row])
  }

  function PlainMove(p: PlainStore, r: Id, project: Id, collection: Id): PlainStore {
    if r !in p.requests then p
    else PlainPut(p, r, p.requests[r].(project := project, collection := collection))
  }

  function PlainRecord(p: PlainStore, id: Id, snapshot: Option<Envelope>): PlainStore {
    p.(snapshots := p.snapshots[id := snapshot])
  }

  // ----- operations -----

  datatype Effect = Effect(store: Store, outcome: Outcome)

  ghost function SaveRequest(s: Store, e: Envelope, project: Id, collection: Id, uuid: Id): Effect {
    var x := Externalize(s.blobs, Sanitize(e), uuid);
    if x.Err? then Effect(s, Failed(x.error))
    else if project !in s.tree.projects || collection !in s.tree.collections then
      Effect(s.(blobs := Release(x.value.table, Bag(x.value.blob))), Failed(Sqlite))
    else
      var previous := if e.id in s.requests then s.requests[e.id].bodyBlob else None;
      Effect(s.(requests := s.requests[e.id := Row(project, collection, x.value.envelope, x.value.blob)],
                blobs := Release(x.value.table, Bag(previous))), Done)
  }

  /** What a save answers: its failure, or the saved row as it reads back. */
  function SaveReply(f: Effect, r: Id): Result<Envelope, StoreError>
    requires f.outcome.Done? ==> r in f.store.requests
  {
    if f.outcome.Failed? then Err(f.outcome.error)
    else Hydrate(f.store.blobs, f.store.requests[r].envelope, f.store.requests[r].bodyBlob)
  }

  /** What reading request `r` returns. */
  function GetRequest(s: Store, r: Id): Result<Option<Envelope>, StoreError> {
    if r !in s.requests then Ok(None)
    else
      var e := Hydrate(s.blobs, s.requests[r].envelope, s.requests[r].bodyBlob);
      if e.Err? then Err(e.error) else Ok(Some(e.value))
  }

  function DeleteRequest(s: Store, r: Id): Effect {
    if r !in s.requests then Effect(s, Failed(NotFound(r)))
    else Effect(s.(requests := s.requests - {r}, blobs := Release(s.blobs, Bag(s.requests[r].bodyBlob))), Done)
  }

  function MoveRequest(s: Store, r: Id, project: Id, collection: Id): Effect {
    if collection !in s.tree.collections || s.tree.collections[collection].project != project then
      Effect(s, Failed(InvalidId))
    else if r !in s.requests then Effect(s, Failed(NotFound(r)))
    else Effect(s.(requests := s.requests[r := s.requests[r].(project := project, collection := collection)]), Done)
  }

  function RequestsIn(requests: map<Id, Row>, collections: set<Id>): set<Id> {
    set r | r in requests && requests[r].collection in collections
  }

  function RequestsOf(requests: map<Id, Row>, project: Id): set<Id> {
    set r | r in requests && requests[r].project == project
  }

  ghost function DeleteCollection(s: Store, id: Id): Effect {
    if id == DEFAULT_COLLECTION then Effect(s, Failed(InvalidId))
    else if id !in s.tree.collections then Effect(s, Failed(NotFound(id)))
    else
      var gone := RequestsIn(s.requests, Cascade(s.tree.collections, {id}));
      Effect(s.(tree := PruneCollection(s.tree, id),
                requests := s.requests - gone,
                blobs := Release(s.blobs, BagOf(BodyColumn(s.requests), gone))), Done)
  }

  /** Rows the project cascade removes although they name another project. */
  function Misfiled(s: Store, id: Id): set<Id> {
    RequestsIn(s.requests, Cascade(s.tree.collections, CollectionsOf(s.tree, id))) - RequestsOf(s.requests, id)
  }

  /** Only rows that name the project have their blobs released; misfiled rows leak theirs. */
  ghost function DeleteProject(s: Store, id: Id): Effect {
    if id == DEFAULT_PROJECT then Effect(s, Failed(InvalidId))
    else if id !in s.tree.projects then Effect(s, Failed(NotFound(id)))
    else
      var own := RequestsOf(s.requests, id);
      var column := BodyColumn(s.requests);
      Effect(s.(tree := PruneProject(s.tree, id),
                requests := s.requests - own - Misfiled(s, id),
                blobs := Release(s.blobs, BagOf(column, own)),
                books := s.books.(leaked := s.books.leaked + BagOf(column, Misfiled(s, id)))), Done)
  }

  /** A caller stores bytes and is handed one reference. */
  ghost function PutForCaller(s: Store, data: Bytes, uuid: Id): Effect {
    var p := PutBlob(s.blobs, data, uuid);
    if p.result.Err? then Effect(s, Failed(p.result.error))
    else Effect(s.(blobs := p.table, books := s.books.(handles := s.books.handles + multiset{p.result.value})), Done)
  }

  /** The first `n` characters of UTF-8 text: continuation bytes stay with their lead byte. */
  function CharPrefix(text: Bytes, n: nat): Bytes {
    if text == [] then []
    else if 128 <= text[0] < 192 then [text[0]] + CharPrefix(text[1..], n)
    else if n == 0 then []
    else [text[0]] + CharPrefix(text[1..], n - 1)
  }

  predicate StoresPreview(rec: ExecutionRecord) {
    rec.responseBlob.None? && rec.preview.Some? && |rec.preview.value| > BLOB_THRESHOLD_BYTES
  }

  datatype Prepared = Prepared(table: BlobTable, snapshot: Option<Envelope>, body: Option<Id>, response: Option<Id>)

  datatype Snapshot = Snapshot(table: BlobTable, envelope: Option<Envelope>, blob: Option<Id>)

  ghost function TakeSnapshot(t: BlobTable, e: Option<Envelope>, uuid: Id): Result<Snapshot, StoreError> {
    if e.None? then Ok(Snapshot(t, None, None))
    else
      var x := Externalize(t, Sanitize(e.value), uuid);
      if x.Err? then Err(x.error) else Ok(Snapshot(x.value.table, Some(x.value.envelope), x.value.blob))
  }

  /** Externalise the snapshot's body, then a long preview; undo the first if the second fails. */
  ghost function Prepare(t: BlobTable, rec: ExecutionRecord, uuid: Id, uuid2: Id): Result<Prepared, (BlobTable, StoreError)> {
    var x := TakeSnapshot(t, rec.snapshot, uuid);
    if x.Err? then Err((t, x.error))
    else if !StoresPreview(rec) then Ok(Prepared(x.value.table, x.value.envelope, x.value.blob, rec.responseBlob))
    else
      var p := PutBlob(x.value.table, rec.preview.value, uuid2);
      if p.result.Err? then Err((Release(p.table, Bag(x.value.blob)), p.result.error))
      else Ok(Prepared(p.table, x.value.envelope, x.value.blob, Some(p.result.value)))
  }

  /** The caller's reference passes to the store together with the new blob table. */
  function TakeOver(s: Store, table: BlobTable, handle: Option<Id>): Store {
    s.(blobs := table, books := s.books.(handles := s.books.handles - Bag(handle)))
  }

  function InsertExecution(s: Store, id: Id, row: Execution, body: Option<Id>): Store {
    s.(executions := s.executions[id := row],
       books := s.books.(snapshots := if body.Some? then s.books.snapshots[id := body.value] else s.books.snapshots))
  }

  ghost function RecordExecution(s: Store, rec: ExecutionRecord, uuid: Id, uuid2: Id): Effect {
    var p := Prepare(s.blobs, rec, uuid, uuid2);
    if p.Err? then Effect(s.(blobs := p.error.0), Failed(p.error.1))
    else
      var s1 := TakeOver(s, p.value.table, rec.responseBlob);
      if rec.id in s.executions then
        Effect(s1.(blobs := Release(s1.blobs, Bag(p.value.body) + Bag(p.value.response))), Failed(Sqlite))
      else
        var preview := if StoresPreview(rec) then Some(CharPrefix(rec.preview.value, 4096)) else rec.preview;
        Effect(InsertExecution(s1, rec.id, Execution(p.value.snapshot, preview, p.value.response), p.value.body), Done)
  }

  /** What reading execution `id` returns: its snapshot and its preview. */
  function GetExecution(s: Store, id: Id): Result<Option<(Option<Envelope>, Option<Bytes>)>, StoreError> {
    if id !in s.executions then Ok(None)
    else
      var row := s.executions[id];
      var preview := if row.responseBlob.Some? && ReadBlob(s.blobs, row.responseBlob.value).Ok?
                     then Some(ReadBlob(s.blobs, row.responseBlob.value).value) else row.preview;
      if row.snapshot.None? then Ok(Some((None, preview)))
      else
        var e := Hydrate(s.blobs, row.snapshot.value, None);
        if e.Err? then Err(e.error) else Ok(Some((Some(e.value), preview)))
  }
}
