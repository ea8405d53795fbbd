/**
 * What every store operation keeps. References move between four places: counted in the blob
 * table, held by a row, held by a caller, or owed to a release that is about to happen.
 */
module StoreLaws {
  import opened Base
  import opened Forest
  import opened Tree
  import opened Envelope
  import opened Blobs
  import opened Store

  // ----- moving references -----

  lemma NamedIsCounted(column: map<Id, Id>, k: Id)
    requires k in column
    ensures |Naming(column, column[k])| >= 1
  {
    assert k in Naming(column, column[k]);
    assert Naming(column, column[k]) != {};
  }

  /** Whatever a row or snapshot names is in the blob table. */
  lemma HeldBlobsExist(s: Store, owed: multiset<Id>)
    requires Accounted(s, owed)
    ensures forall r :: r in s.requests && s.requests[r].bodyBlob.Some? ==> s.requests[r].bodyBlob.value in s.blobs.rows
    ensures forall e :: e in s.books.snapshots ==> s.books.snapshots[e] in s.blobs.rows
    ensures forall e :: e in s.executions && s.executions[e].responseBlob.Some? ==> s.executions[e].responseBlob.value in s.blobs.rows
  {
    forall r | r in s.requests && s.requests[r].bodyBlob.Some? ensures s.requests[r].bodyBlob.value in s.blobs.rows {
      NamedIsCounted(BodyColumn(s.requests), r);
      assert RefCount(s.blobs, s.requests[r].bodyBlob.value) >= 1;
    }
    forall e | e in s.books.snapshots ensures s.books.snapshots[e] in s.blobs.rows {
      NamedIsCounted(s.books.snapshots, e);
      assert RefCount(s.blobs, s.books.snapshots[e]) >= 1;
    }
    forall e | e in s.executions && s.executions[e].responseBlob.Some? ensures s.executions[e].responseBlob.value in s.blobs.rows {
      NamedIsCounted(ResponseColumn(s.executions), e);
      assert RefCount(s.blobs, s.executions[e].responseBlob.value) >= 1;
    }
  }

  ghost predicate AgreeWhereBoth(t: BlobTable, t': BlobTable) {
    forall b :: b in t.rows && b in t'.rows ==> t'.rows[b].digest == t.rows[b].digest
  }

  /** A new blob table that still has every named blob changes neither layout nor meaning. */
  lemma CarryOver(s: Store, t': BlobTable)
    requires Layout(s) && AgreeWhereBoth(s.blobs, t')
    requires forall r :: r in s.requests && s.requests[r].bodyBlob.Some? ==> s.requests[r].bodyBlob.value in t'.rows
    requires forall e :: e in s.books.snapshots ==> s.books.snapshots[e] in t'.rows
    ensures Layout(s.(blobs := t'))
    ensures Plain(s.(blobs := t')) == Plain(s)
  {
    var s' := s.(blobs := t');
    assert RowsFit(s');
    assert SnapshotsFit(s') by {
      forall e | e in s'.executions && s'.executions[e].snapshot.Some?
        ensures StoredOk(t', s'.executions[e].snapshot.value, SnapshotBlob(s', e))
      {
        assert SnapshotBlob(s', e) == SnapshotBlob(s, e);
      }
    }
    assert Plain(s').requests == Plain(s).requests;
    forall e | e in s.executions ensures PlainSnapshot(s', e) == PlainSnapshot(s, e) {
      assert SnapshotBlob(s', e) == SnapshotBlob(s, e);
    }
    assert Plain(s').snapshots == Plain(s).snapshots;
  }

  lemma PutStage(s: Store, data: Bytes, uuid: Id, owed: multiset<Id>)
    requires Layout(s) && Accounted(s, owed) && PutBlob(s.blobs, data, uuid).result.Ok?
    ensures var p := PutBlob(s.blobs, data, uuid);
            var s' := s.(blobs := p.table);
            Layout(s') && Accounted(s', owed + multiset{p.result.value}) && Plain(s') == Plain(s)
  {
    var p := PutBlob(s.blobs, data, uuid);
    PutBlobKeeps(s.blobs, data, uuid);
    HeldBlobsExist(s, owed);
    CarryOver(s, p.table);
    var s' := s.(blobs := p.table);
    forall b ensures RefCount(p.table, b) == Holders(s', b) + s'.books.leaked[b] + (owed + multiset{p.result.value})[b] {
      assert Holders(s', b) == Holders(s, b);
      assert RefCount(s.blobs, b) == Holders(s, b) + s.books.leaked[b] + owed[b];
    }
  }

  lemma ReleaseStage(s: Store, bag: multiset<Id>, owed: multiset<Id>)
    requires Layout(s) && Accounted(s, owed + bag)
    ensures var s' := s.(blobs := Release(s.blobs, bag));
            Layout(s') && Accounted(s', owed) && Plain(s') == Plain(s)
  {
    var s' := s.(blobs := Release(s.blobs, bag));
    forall b ensures bag[b] <= RefCount(s.blobs, b) {
      assert RefCount(s.blobs, b) == Holders(s, b) + s.books.leaked[b] + (owed + bag)[b];
    }
    ReleaseKeeps(s.blobs, bag);
    forall b ensures RefCount(s'.blobs, b) == Holders(s', b) + s'.books.leaked[b] + owed[b] {
      assert Holders(s', b) == Holders(s, b);
      assert RefCount(s.blobs, b) == Holders(s, b) + s.books.leaked[b] + (owed + bag)[b];
    }
    HeldBlobsExist(s', owed);
    CarryOver(s, s'.blobs);
  }

  lemma BodyColumnInsert(requests: map<Id, Row>, r: Id, row: Row, b: Id)
    ensures |Naming(BodyColumn(requests[r := row]), b)| + Bag(if r in requests then requests[r].bodyBlob else None)[b]
            == |Naming(BodyColumn(requests), b)| + Bag(row.bodyBlob)[b]
  {
    var column := BodyColumn(requests);
    var column' := BodyColumn(requests[r := row]);
    OneNamed(column, r, b);
    OneNamed(column', r, b);
    assert column' - {r} == column - {r};
  }

  lemma OneNamed(column: map<Id, Id>, r: Id, b: Id)
    ensures |Naming(column, b)| == |Naming(column - {r}, b)| + (if r in column && column[r] == b then 1 else 0)
  {
    NamingRemove(column, {r}, b);
    if r in column && column[r] == b {
      assert Naming(column, b) * {r} == {r};
    } else {
      assert Naming(column, b) * {r} == {};
    }
  }

  /** Writing a row moves its blob from `owed` to the row, and the row's former blob the other way. */
  lemma WriteStage(s: Store, r: Id, row: Row, owed: multiset<Id>)
    requires Accounted(s, owed + Bag(row.bodyBlob))
    ensures Accounted(s.(requests := s.requests[r := row]),
                      owed + Bag(if r in s.requests then s.requests[r].bodyBlob else None))
  {
    var s' := s.(requests := s.requests[r := row]);
    var previous := if r in s.requests then s.requests[r].bodyBlob else None;
    forall b ensures RefCount(s'.blobs, b) == Holders(s', b) + s'.books.leaked[b] + (owed + Bag(previous))[b] {
      BodyColumnInsert(s.requests, r, row, b);
      assert RefCount(s.blobs, b) == Holders(s, b) + s.books.leaked[b] + (owed + Bag(row.bodyBlob))[b];
    }
  }

  /** Dropping rows leaves their blobs owed, one reference for each dropped row that named one. */
  lemma DropStage(s: Store, gone: set<Id>, owed: multiset<Id>)
    requires Accounted(s, owed)
    ensures Accounted(s.(requests := s.requests - gone), owed + BagOf(BodyColumn(s.requests), gone))
  {
    var s' := s.(requests := s.requests - gone);
    var column := BodyColumn(s.requests);
    assert BodyColumn(s'.requests) == column - gone;
    forall b ensures RefCount(s'.blobs, b) == Holders(s', b) + s'.books.leaked[b] + (owed + BagOf(column, gone))[b] {
      NamingRemove(column, gone, b);
      assert RefCount(s.blobs, b) == Holders(s, b) + s.books.leaked[b] + owed[b];
    }
  }

  lemma PlainDrop(s: Store, gone: set<Id>)
    ensures Plain(s.(requests := s.requests - gone)) == Plain(s).(requests := Plain(s).requests - gone)
  {
    var s' := s.(requests := s.requests - gone);
    assert Plain(s').requests == Plain(s).requests - gone;
    SameSnapshots(s, s');
  }

  // ----- saving -----

  /** Storing a body and at once releasing it leaves the table as it was. */
  lemma PutThenReleaseIsNothing(t: BlobTable, data: Bytes, uuid: Id)
    requires TableOk(t) && PutBlob(t, data, uuid).result.Ok?
    ensures var p := PutBlob(t, data, uuid); Release(p.table, multiset{p.result.value}) == t
  {
    var p := PutBlob(t, data, uuid);
    PutBlobKeeps(t, data, uuid);
    CountThenRelease(t, p.table, p.result.value);
  }

  lemma CountThenRelease(t: BlobTable, t1: BlobTable, b: Id)
    requires TableOk(t) && TableOk(t1) && Counted(t, t1, b) && SameContents(t, t1)
    ensures Release(t1, multiset{b}) == t
  {
    var bag := multiset{b};
    var t' := Release(t1, bag);
    forall c ensures bag[c] <= RefCount(t1, c) && RefCount(t1, c) == RefCount(t, c) + bag[c] {
      assert RefCount(t1, c) == RefCount(t, c) + (if c == b then 1 else 0);
      assert bag[c] == if c == b then 1 else 0;
    }
    ReleaseKeeps(t1, bag);
    forall c ensures RefCount(t', c) == RefCount(t, c) {
      assert RefCount(t', c) == RefCount(t1, c) - bag[c];
    }
    CountsDetermine(t, t1, t');
  }

  /** Tables with the same counts that agree on contents with a common table are equal. */
  lemma CountsDetermine(t: BlobTable, t1: BlobTable, t': BlobTable)
    requires TableOk(t) && TableOk(t') && SameContents(t, t1) && SameContents(t', t1)
    requires forall c :: RefCount(t', c) == RefCount(t, c)
    ensures t' == t
  {
    forall c ensures (c in t'.rows <==> c in t.rows) && (c in t.rows ==> t'.rows[c] == t.rows[c]) {
      assert RefCount(t', c) == RefCount(t, c);
    }
    assert t'.rows == t.rows;
    FilesDetermined(t', t);
  }

  lemma ExternalizeStage(s: Store, e: Envelope, uuid: Id)
    requires Layout(s) && Accounted(s, multiset{}) && Externalize(s.blobs, e, uuid).Ok?
    ensures var x := Externalize(s.blobs, e, uuid).value;
            var s' := s.(blobs := x.table);
            && Layout(s') && Accounted(s', multiset{} + Bag(x.blob)) && Plain(s') == Plain(s)
            && StoredOk(x.table, x.envelope, x.blob) && Original(x.table, x.envelope, x.blob) == e
            && Release(x.table, Bag(x.blob)) == s.blobs
  {
    ExternalizeKeeps(s.blobs, e, uuid);
    if IsLarge(e) {
      PutStage(s, Body(e).value, uuid, multiset{});
      PutThenReleaseIsNothing(s.blobs, Body(e).value, uuid);
    } else {
      ReleaseNothing(s.blobs);
    }
  }

  /** A save either changes nothing at all or makes exactly the row it was asked for. */
  lemma SaveRequestLaw(s: Store, e: Envelope, project: Id, collection: Id, uuid: Id)
    requires StoreOk(s)
    ensures var f := SaveRequest(s, e, project, collection, uuid);
            && StoreOk(f.store)
            && (f.outcome.Failed? ==> f.store == s)
            && (f.outcome.Done? ==> Plain(f.store) == PlainPut(Plain(s), e.id, PlainRow(project, collection, Sanitize(e))))
            && (f.outcome.Failed? <==> project !in s.tree.projects || collection !in s.tree.collections
                                       || Externalize(s.blobs, Sanitize(e), uuid).Err?)
            && (f.outcome.Done? ==> f.store.books == s.books && f.store.tree == s.tree)
  {
    var x := Externalize(s.blobs, Sanitize(e), uuid);
    if x.Ok? {
      ExternalizeStage(s, Sanitize(e), uuid);
      if project in s.tree.projects && collection in s.tree.collections {
        SaveWrites(s.(blobs := x.value.table), e.id, Row(project, collection, x.value.envelope, x.value.blob));
      }
    }
  }

  lemma SaveWrites(s: Store, r: Id, row: Row)
    requires TreeOk(s.tree) && Layout(s) && Accounted(s, multiset{} + Bag(row.bodyBlob))
    requires row.project in s.tree.projects && row.collection in s.tree.collections
    requires StoredOk(s.blobs, row.envelope, row.bodyBlob)
    ensures var previous := if r in s.requests then s.requests[r].bodyBlob else None;
            var s' := s.(requests := s.requests[r := row], blobs := Release(s.blobs, Bag(previous)));
            && StoreOk(s')
            && Plain(s') == PlainPut(Plain(s), r, PlainRequest(s.blobs, row))
  {
    var previous := if r in s.requests then s.requests[r].bodyBlob else None;
    var written := s.(requests := s.requests[r := row]);
    WriteStage(s, r, row, multiset{});
    PlainWrite(s, r, row);
    ReleaseStage(written, Bag(previous), multiset{});
  }

  lemma PlainWrite(s: Store, r: Id, row: Row)
    requires Layout(s) && StoredOk(s.blobs, row.envelope, row.bodyBlob)
    requires row.project in s.tree.projects && row.collection in s.tree.collections
    ensures Layout(s.(requests := s.requests[r := row]))
    ensures Plain(s.(requests := s.requests[r := row])) == PlainPut(Plain(s), r, PlainRequest(s.blobs, row))
  {
    var written := s.(requests := s.requests[r := row]);
    WriteFits(s, r, row);
    hide Layout, StoredOk;
    assert Plain(written).requests == Plain(s).requests[r := PlainRequest(s.blobs, row)];
    SameSnapshots(s, written);
  }

  lemma WriteFits(s: Store, r: Id, row: Row)
    requires Layout(s) && StoredOk(s.blobs, row.envelope, row.bodyBlob)
    requires row.project in s.tree.projects && row.collection in s.tree.collections
    ensures Layout(s.(requests := s.requests[r := row]))
  {
    var written := s.(requests := s.requests[r := row]);
    hide StoredOk;
    assert RowsFit(written);
    assert forall e :: SnapshotBlob(written, e) == SnapshotBlob(s, e);
    assert SnapshotsFit(written);
  }

  lemma SameSnapshots(s: Store, s': Store)
    requires s'.executions == s.executions && s'.blobs == s.blobs && s'.books.snapshots == s.books.snapshots
    ensures Plain(s').snapshots == Plain(s).snapshots
  {
    forall e | e in s.executions ensures PlainSnapshot(s', e) == PlainSnapshot(s, e) {
      assert SnapshotBlob(s', e) == SnapshotBlob(s, e);
    }
  }

  /** A long body leaves the row for a blob and a marker stays behind; a short one stays where it is. */
  lemma BodiesAreStored(s: Store, e: Envelope, project: Id, collection: Id, uuid: Id)
    requires StoreOk(s) && SaveRequest(s, e, project, collection, uuid).outcome.Done?
    ensures var f := SaveRequest(s, e, project, collection, uuid).store;
            && e.id in f.requests
            && var row := f.requests[e.id];
               && row.project == project && row.collection == collection
               && (e.payload.Http? && e.payload.body.Some? && |e.payload.body.value| > BLOB_THRESHOLD_BYTES ==>
                     && row.bodyBlob.Some? && row.envelope.payload.Http?
                     && row.envelope.payload.body == Some(MARKER + row.bodyBlob.value)
                     && ReadBlob(f.blobs, row.bodyBlob.value) == Ok(e.payload.body.value))
               && (!e.payload.Http? || e.payload.body.None? || |e.payload.body.value| <= BLOB_THRESHOLD_BYTES ==>
                     row.bodyBlob.None? && row.envelope == Sanitize(e))
  {
    var f := SaveRequest(s, e, project, collection, uuid).store;
    SaveRequestLaw(s, e, project, collection, uuid);
    var row := f.requests[e.id];
    assert Plain(f).requests[e.id] == PlainRow(project, collection, Sanitize(e));
    assert StoredOk(f.blobs, row.envelope, row.bodyBlob);
    if row.bodyBlob.Some? {
      ReadsBack(f.blobs, row.bodyBlob.value);
    }
  }

  /**
   * What a save answers. The insert may succeed and the answer still be an error: a small body that
   * begins with the marker is looked up after the row was written.
   */
  lemma SaveAnswersExactly(s: Store, e: Envelope, project: Id, collection: Id, uuid: Id)
    requires StoreOk(s)
    ensures var f := SaveRequest(s, e, project, collection, uuid);
            var c := Sanitize(e);
            var lookedUp := !IsLarge(c) && MarkedBlob(c).Some?;
            && (SaveReply(f, e.id).Err? <==>
                  f.outcome.Failed? || (lookedUp && ReadBlob(f.store.blobs, MarkedBlob(c).value).Err?))
            && (SaveReply(f, e.id) == Ok(c) <==>
                  f.outcome.Done? && (lookedUp ==> ReadBlob(f.store.blobs, MarkedBlob(c).value) == Ok(Body(c).value)))
  {
    var f := SaveRequest(s, e, project, collection, uuid);
    var c := Sanitize(e);
    SaveRequestLaw(s, e, project, collection, uuid);
    if f.outcome.Done? {
      var row := f.store.requests[e.id];
      assert Plain(f.store).requests[e.id] == PlainRow(project, collection, c);
      assert StoredOk(f.store.blobs, row.envelope, row.bodyBlob);
      HydrateExactly(f.store.blobs, row.envelope, row.bodyBlob);
      if row.bodyBlob.Some? {
        ReadsBack(f.store.blobs, row.bodyBlob.value);
      }
    }
  }

  // ----- moving and deleting -----

  lemma MoveRequestLaw(s: Store, r: Id, project: Id, collection: Id)
    requires StoreOk(s)
    ensures var f := MoveRequest(s, r, project, collection);
            && StoreOk(f.store)
            && (f.outcome.Failed? <==>
                  || r !in s.requests || collection !in s.tree.collections
                  || s.tree.collections[collection].project != project)
            && (f.outcome.Failed? ==> f.store == s)
            && (f.outcome.Done? ==> r in s.requests && Plain(f.store) == PlainMove(Plain(s), r, project, collection))
  {
    var f := MoveRequest(s, r, project, collection);
    if f.outcome.Done? {
      var row := s.requests[r].(project := project, collection := collection);
      PlainWrite(s, r, row);
      forall b ensures RefCount(f.store.blobs, b) == Holders(f.store, b) + f.store.books.leaked[b] + multiset{}[b] {
        BodyColumnInsert(s.requests, r, row, b);
        assert RefCount(s.blobs, b) == Holders(s, b) + s.books.leaked[b] + multiset{}[b];
      }
      assert PlainRequest(s.blobs, row) == Plain(s).requests[r].(project := project, collection := collection);
    }
  }

  /** Dropping rows and releasing exactly their blobs. */
  lemma DropAndRelease(s: Store, gone: set<Id>)
    requires Layout(s) && Accounted(s, multiset{})
    ensures var s' := Drop(s, gone);
            && Layout(s') && Accounted(s', multiset{})
            && Plain(s') == Plain(s).(requests := Plain(s).requests - gone)
  {
    var dropped := s.(requests := s.requests - gone);
    DropStage(s, gone, multiset{});
    assert Layout(dropped) by {
      assert forall e :: SnapshotBlob(dropped, e) == SnapshotBlob(s, e);
    }
    ReleaseStage(dropped, BagOf(BodyColumn(s.requests), gone), multiset{});
    PlainDrop(s, gone);
  }

  lemma DeleteRequestLaw(s: Store, r: Id)
    requires StoreOk(s)
    ensures var f := DeleteRequest(s, r);
            && StoreOk(f.store)
            && (f.outcome.Failed? <==> r !in s.requests)
            && (f.outcome.Failed? ==> f.store == s)
            && Plain(f.store) == Plain(s).(requests := Plain(s).requests - {r})
  {
    if r in s.requests {
      DropAndRelease(s, {r});
      OneRowBag(s.requests, r);
    } else {
      assert Plain(s).requests - {r} == Plain(s).requests;
    }
  }

  lemma OneRowBag(requests: map<Id, Row>, r: Id)
    requires r in requests
    ensures BagOf(BodyColumn(requests), {r}) == Bag(requests[r].bodyBlob)
  {
    var column := BodyColumn(requests);
    forall b ensures BagOf(column, {r})[b] == Bag(requests[r].bodyBlob)[b] {
      if r in column && column[r] == b {
        assert Naming(column, b) * {r} == {r};
      } else {
        assert Naming(column, b) * {r} == {};
      }
    }
  }

  lemma DeleteCollectionStage(s: Store, id: Id)
    requires StoreOk(s) && id in s.tree.collections && id != DEFAULT_COLLECTION
    ensures var s' := DeleteCollection(s, id).store;
            var gone := RequestsIn(s.requests, Cascade(s.tree.collections, {id}));
            && StoreOk(s')
            && Plain(s') == Plain(s).(tree := PruneCollection(s.tree, id), requests := Plain(s).requests - gone)
  {
    var gone := RequestsIn(s.requests, Cascade(s.tree.collections, {id}));
    DropAndRelease(s, gone);
    PruneCollectionKeeps(s.tree, id);
    SwapTree(Drop(s, gone), PruneCollection(s.tree, id));
  }

  /** The subtree and the requests filed in it are gone; every other request stands for what it did. */
  ghost predicate DeletedExactly(s: Store, s': Store, id: Id) {
    var cs := s.tree.collections;
    && (forall c :: c in s'.tree.collections <==> c in cs && !Under(cs, c, id))
    && (forall r :: r in s'.requests <==> r in s.requests && !Under(cs, s.requests[r].collection, id))
    && (forall r :: r in s'.requests ==> Plain(s').requests[r] == Plain(s).requests[r])
    && Plain(s').snapshots == Plain(s).snapshots
  }

  lemma SubtreeDeleted(s: Store, s': Store, id: Id)
    requires s'.tree == PruneCollection(s.tree, id)
    requires s'.requests == s.requests - RequestsIn(s.requests, Cascade(s.tree.collections, {id}))
    requires Plain(s').requests == Plain(s).requests - RequestsIn(s.requests, Cascade(s.tree.collections, {id}))
    requires Plain(s').snapshots == Plain(s).snapshots
    ensures DeletedExactly(s, s', id)
  {
    WhatIsDeleted(s, id);
  }

  /**
   * Deleting a collection removes exactly its descendants and the requests filed in them,
   * releases each removed row's blob once, and leaves every other request reading as before.
   */
  lemma DeleteCollectionLaw(s: Store, id: Id)
    requires StoreOk(s)
    ensures var f := DeleteCollection(s, id);
            && StoreOk(f.store)
            && (f.outcome.Failed? <==> id == DEFAULT_COLLECTION || id !in s.tree.collections)
            && (f.outcome.Failed? ==> f.store == s)
            && (f.outcome.Done? ==> DeletedExactly(s, f.store, id) && f.store.books == s.books)
  {
    if DeleteCollection(s, id).outcome.Done? {
      DeleteCollectionStage(s, id);
      SubtreeDeleted(s, DeleteCollection(s, id).store, id);
    }
  }

  lemma WhatIsDeleted(s: Store, id: Id)
    ensures forall c :: c in PruneCollection(s.tree, id).collections <==> c in s.tree.collections && !Under(s.tree.collections, c, id)
    ensures forall r :: r in s.requests - RequestsIn(s.requests, Cascade(s.tree.collections, {id})) <==>
              r in s.requests && !Under(s.tree.collections, s.requests[r].collection, id)
  {
    forall c ensures c in Cascade(s.tree.collections, {id}) <==> Under(s.tree.collections, c, id) {
      CascadeIsSubtree(s.tree.collections, id, c);
    }
  }

  /** Replacing the tree keeps the layout as long as every remaining row still has its parents. */
  lemma SwapTree(s: Store, tree: Tree)
    requires Layout(s) && Accounted(s, multiset{})
    requires forall r :: r in s.requests ==> s.requests[r].project in tree.projects && s.requests[r].collection in tree.collections
    ensures Layout(s.(tree := tree)) && Accounted(s.(tree := tree), multiset{})
    ensures Plain(s.(tree := tree)) == Plain(s).(tree := tree)
  {
    var s' := s.(tree := tree);
    assert forall e :: SnapshotBlob(s', e) == SnapshotBlob(s, e);
    forall b ensures RefCount(s'.blobs, b) == Holders(s', b) + s'.books.leaked[b] + multiset{}[b] {
      assert RefCount(s.blobs, b) == Holders(s, b) + s.books.leaked[b] + multiset{}[b];
    }
    SameSnapshots(s, s');
    assert Plain(s').requests == Plain(s).requests;
  }

  // ----- deleting a project -----

  ghost function Leak(s: Store, gone: set<Id>): Store {
    s.(requests := s.requests - gone,
       books := s.books.(leaked := s.books.leaked + BagOf(BodyColumn(s.requests), gone)))
  }

  /** References dropped without a release become leaks. */
  lemma LeakStage(s: Store, gone: set<Id>)
    requires Layout(s) && Accounted(s, multiset{})
    ensures Layout(Leak(s, gone)) && Accounted(Leak(s, gone), multiset{})
    ensures Plain(Leak(s, gone)) == Plain(s).(requests := Plain(s).requests - gone)
  {
    var dropped := s.(requests := s.requests - gone);
    var s' := Leak(s, gone);
    DropStage(s, gone, multiset{});
    var bag := multiset{} + BagOf(BodyColumn(s.requests), gone);
    forall b ensures RefCount(s'.blobs, b) == Holders(s', b) + s'.books.leaked[b] + multiset{}[b] {
      assert Holders(s', b) == Holders(dropped, b);
      assert RefCount(dropped.blobs, b) == Holders(dropped, b) + dropped.books.leaked[b] + bag[b];
    }
    assert forall e :: SnapshotBlob(s', e) == SnapshotBlob(s, e);
    PlainDrop(s, gone);
    SameSnapshots(s, s');
    assert Plain(s').requests == Plain(dropped).requests;
  }

  /** A bag is determined by how often each blob is named. */
  lemma BagDetermined(column: map<Id, Id>, keys: set<Id>, bag: multiset<Id>)
    requires forall b :: bag[b] == |Naming(column, b) * keys|
    ensures BagOf(column, keys) == bag
  {
    var other := BagOf(column, keys);
    assert forall b :: other[b] == bag[b];
  }

  lemma NamingOutside(requests: map<Id, Row>, other: set<Id>, keys: set<Id>, b: Id)
    requires other !! keys
    ensures Naming(BodyColumn(requests - other), b) * keys == Naming(BodyColumn(requests), b) * keys
  {}

  lemma BagIgnoresOthers(requests: map<Id, Row>, other: set<Id>, keys: set<Id>)
    requires other !! keys
    ensures BagOf(BodyColumn(requests - other), keys) == BagOf(BodyColumn(requests), keys)
  {
    var bag := BagOf(BodyColumn(requests - other), keys);
    forall b ensures bag[b] == |Naming(BodyColumn(requests), b) * keys| {
      NamingOutside(requests, other, keys, b);
    }
    BagDetermined(BodyColumn(requests), keys, bag);
  }

  /**
   * Deleting a project removes exactly its modules, its collections and the requests that name it
   * or are filed in them. The leaks grow by the blobs of the misfiled rows and nothing else.
   */
  lemma DeleteProjectLaw(s: Store, id: Id)
    requires StoreOk(s)
    ensures var f := DeleteProject(s, id);
            && StoreOk(f.store)
            && (f.outcome.Failed? <==> id == DEFAULT_PROJECT || id !in s.tree.projects)
            && (f.outcome.Failed? ==> f.store == s)
            && (f.outcome.Done? ==>
                  && f.store.tree == PruneProject(s.tree, id)
                  && Plain(f.store).requests == Plain(s).requests - RequestsOf(s.requests, id) - Misfiled(s, id)
                  && Plain(f.store).snapshots == Plain(s).snapshots
                  && f.store.books == s.books.(leaked := s.books.leaked + BagOf(BodyColumn(s.requests), Misfiled(s, id))))
  {
    if id in s.tree.projects && id != DEFAULT_PROJECT {
      var dropped := Drop(Leak(s, Misfiled(s, id)), RequestsOf(s.requests, id));
      DroppedProject(s, id);
      DeletionDropsAndLeaks(s, id);
      assert DeleteProject(s, id).store == dropped.(tree := PruneProject(s.tree, id));
    }
    hide StoreOk, Plain, PruneProject, Release, Misfiled, RequestsOf, Drop;
  }

  lemma DroppedProject(s: Store, id: Id)
    requires StoreOk(s) && id in s.tree.projects && id != DEFAULT_PROJECT
    ensures var s' := Drop(Leak(s, Misfiled(s, id)), RequestsOf(s.requests, id)).(tree := PruneProject(s.tree, id));
            && StoreOk(s')
            && Plain(s').requests == Plain(s).requests - RequestsOf(s.requests, id) - Misfiled(s, id)
            && Plain(s').snapshots == Plain(s).snapshots
  {
    var own := RequestsOf(s.requests, id);
    var misfiled := Misfiled(s, id);
    LeakThenDrop(s, own, misfiled);
    PruneProjectKeeps(s.tree, id);
    ProjectCascade(s.tree, id);
    hide Layout, Accounted, TreeOk, Plain, Release;
    SwapTree(Drop(Leak(s, misfiled), own), PruneProject(s.tree, id));
  }

  ghost function Drop(s: Store, gone: set<Id>): Store {
    s.(requests := s.requests - gone, blobs := Release(s.blobs, BagOf(BodyColumn(s.requests), gone)))
  }

  lemma LeakThenDrop(s: Store, own: set<Id>, misfiled: set<Id>)
    requires Layout(s) && Accounted(s, multiset{})
    ensures var s' := Drop(Leak(s, misfiled), own);
            && Layout(s') && Accounted(s', multiset{})
            && Plain(s') == Plain(s).(requests := Plain(s).requests - own - misfiled)
  {
    LeakStage(s, misfiled);
    DropAndRelease(Leak(s, misfiled), own);
    MinusCommutes(Plain(s).requests, misfiled, own);
  }

  lemma MinusCommutes<V>(m: map<Id, V>, a: set<Id>, b: set<Id>)
    ensures m - a - b == m - b - a
  {}

  lemma DeletionDropsAndLeaks(s: Store, id: Id)
    requires id in s.tree.projects && id != DEFAULT_PROJECT
    ensures DeleteProject(s, id).store
            == Drop(Leak(s, Misfiled(s, id)), RequestsOf(s.requests, id)).(tree := PruneProject(s.tree, id))
  {
    var own := RequestsOf(s.requests, id);
    var misfiled := Misfiled(s, id);
    BagIgnoresOthers(s.requests, misfiled, own);
    MinusCommutes(s.requests, misfiled, own);
  }

  /** Nothing leaks exactly when no request with a blob is filed in another project's collection. */
  lemma NoLeakExactly(s: Store, id: Id)
    requires StoreOk(s) && id in s.tree.projects && id != DEFAULT_PROJECT
    ensures DeleteProject(s, id).store.books.leaked == s.books.leaked <==>
            forall r :: r in Misfiled(s, id) ==> s.requests[r].bodyBlob.None?
  {
    var column := BodyColumn(s.requests);
    var gone := Misfiled(s, id);
    if r :| r in gone && s.requests[r].bodyBlob.Some? {
      BagHas(column, gone, r);
      assert (s.books.leaked + BagOf(column, gone))[column[r]] != s.books.leaked[column[r]];
    } else {
      assert column.Keys !! gone;
      BagEmpty(column, gone);
      assert s.books.leaked + multiset{} == s.books.leaked;
    }
  }

  lemma BagHas(column: map<Id, Id>, keys: set<Id>, r: Id)
    requires r in column && r in keys
    ensures BagOf(column, keys)[column[r]] >= 1
  {
    var named := Naming(column, column[r]) * keys;
    assert r in named;
    assert named != {};
  }

  lemma BagEmpty(column: map<Id, Id>, keys: set<Id>)
    requires column.Keys !! keys
    ensures BagOf(column, keys) == multiset{}
  {
    forall b ensures multiset{}[b] == |Naming(column, b) * keys| {
      assert Naming(column, b) * keys == {};
    }
    BagDetermined(column, keys, multiset{});
  }

  // ----- callers and executions -----

  lemma PutForCallerLaw(s: Store, data: Bytes, uuid: Id)
    requires StoreOk(s)
    ensures var f := PutForCaller(s, data, uuid);
            && StoreOk(f.store) && Plain(f.store) == Plain(s)
            && (f.outcome.Failed? ==> f.store == s)
            && (f.outcome.Done? <==> PutBlob(s.blobs, data, uuid).result.Ok?)
            && (f.outcome.Done? ==>
                  var id := PutBlob(s.blobs, data, uuid).result.value;
                  f.store.books.handles == s.books.handles + multiset{id} && ReadBlob(f.store.blobs, id) == Ok(data))
  {
    var p := PutBlob(s.blobs, data, uuid);
    if p.result.Ok? {
      PutBlobKeeps(s.blobs, data, uuid);
      ReadsBack(p.table, p.result.value);
      PutStage(s, data, uuid, multiset{});
      var s1 := s.(blobs := p.table);
      HandStage(s1, multiset{p.result.value}, multiset{});
    }
  }

  /** Handing owed references to a caller. */
  lemma HandStage(s: Store, bag: multiset<Id>, owed: multiset<Id>)
    requires Layout(s) && Accounted(s, owed + bag)
    ensures var s' := s.(books := s.books.(handles := s.books.handles + bag));
            Layout(s') && Accounted(s', owed) && Plain(s') == Plain(s)
  {
    var s' := s.(books := s.books.(handles := s.books.handles + bag));
    assert forall e :: SnapshotBlob(s', e) == SnapshotBlob(s, e);
    SameSnapshots(s, s');
    assert Plain(s').requests == Plain(s).requests;
    forall b ensures RefCount(s'.blobs, b) == Holders(s', b) + s'.books.leaked[b] + owed[b] {
      assert RefCount(s.blobs, b) == Holders(s, b) + s.books.leaked[b] + (owed + bag)[b];
    }
  }

  /** Taking references back from a caller who holds them. */
  lemma TakeBackStage(s: Store, bag: multiset<Id>, owed: multiset<Id>)
    requires Layout(s) && Accounted(s, owed) && bag <= s.books.handles
    ensures var s' := s.(books := s.books.(handles := s.books.handles - bag));
            Layout(s') && Accounted(s', owed + bag) && Plain(s') == Plain(s)
  {
    var s' := s.(books := s.books.(handles := s.books.handles - bag));
    assert forall e :: SnapshotBlob(s', e) == SnapshotBlob(s, e);
    SameSnapshots(s, s');
    assert Plain(s').requests == Plain(s).requests;
    forall b ensures RefCount(s'.blobs, b) == Holders(s', b) + s'.books.leaked[b] + (owed + bag)[b] {
      assert RefCount(s.blobs, b) == Holders(s, b) + s.books.leaked[b] + owed[b];
    }
  }

  /** Inserting an execution hands its snapshot's and its response's references to the new row. */
  lemma InsertStage(s: Store, id: Id, row: Execution, body: Option<Id>)
    requires SnapshotsFit(s) && id !in s.executions && Accounted(s, Bag(body) + Bag(row.responseBlob))
    ensures Accounted(InsertExecution(s, id, row, body), multiset{})
  {
    var s' := InsertExecution(s, id, row, body);
    var owed := Bag(body) + Bag(row.responseBlob);
    forall b ensures RefCount(s'.blobs, b) == Holders(s', b) + s'.books.leaked[b] + multiset{}[b] {
      SnapshotsInsert(s.books.snapshots, id, body, b);
      ResponsesInsert(s.executions, id, row, b);
      assert RefCount(s.blobs, b) == Holders(s, b) + s.books.leaked[b] + owed[b];
    }
  }

  lemma SnapshotsInsert(snapshots: map<Id, Id>, id: Id, body: Option<Id>, b: Id)
    requires id !in snapshots
    ensures |Naming(if body.Some? then snapshots[id := body.value] else snapshots, b)| == |Naming(snapshots, b)| + Bag(body)[b]
  {
    if body.Some? {
      NamingInsert(snapshots, id, body.value, b);
      assert snapshots - {id} == snapshots;
    }
  }

  lemma ResponsesInsert(executions: map<Id, Execution>, id: Id, row: Execution, b: Id)
    requires id !in executions
    ensures |Naming(ResponseColumn(executions[id := row]), b)|
         == |Naming(ResponseColumn(executions), b)| + Bag(row.responseBlob)[b]
  {
    var column := ResponseColumn(executions);
    if row.responseBlob.Some? {
      assert ResponseColumn(executions[id := row]) == column[id := row.responseBlob.value];
      NamingInsert(column, id, row.responseBlob.value, b);
      assert column - {id} == column;
    } else {
      assert ResponseColumn(executions[id := row]) == column;
    }
  }

  lemma PlainInsert(s: Store, id: Id, row: Execution, body: Option<Id>)
    requires Layout(s) && id !in s.executions && (row.snapshot.None? ==> body.None?)
    requires row.snapshot.Some? ==> StoredOk(s.blobs, row.snapshot.value, body)
    ensures Layout(InsertExecution(s, id, row, body))
    ensures Plain(InsertExecution(s, id, row, body)) == PlainRecord(Plain(s), id, ShownSnapshot(s.blobs, row, body))
  {
    var s' := InsertExecution(s, id, row, body);
    assert SnapshotBlob(s', id) == body;
    forall e | e in s.executions ensures SnapshotBlob(s', e) == SnapshotBlob(s, e) && PlainSnapshot(s', e) == PlainSnapshot(s, e) {
      assert e != id;
    }
    InsertFits(s, id, row, body);
    assert Plain(s').requests == Plain(s).requests;
    assert PlainSnapshot(s', id) == ShownSnapshot(s.blobs, row, body);
    assert Plain(s').snapshots == Plain(s).snapshots[id := ShownSnapshot(s.blobs, row, body)];
  }

  lemma InsertFits(s: Store, id: Id, row: Execution, body: Option<Id>)
    requires Layout(s) && id !in s.executions && (row.snapshot.None? ==> body.None?)
    requires row.snapshot.Some? ==> StoredOk(s.blobs, row.snapshot.value, body)
    ensures Layout(InsertExecution(s, id, row, body))
  {
    var s' := InsertExecution(s, id, row, body);
    assert RowsFit(s');
    forall e | e in s'.executions
      ensures if s'.executions[e].snapshot.None? then e !in s'.books.snapshots
              else StoredOk(s'.blobs, s'.executions[e].snapshot.value, SnapshotBlob(s', e))
    {
      if e == id {
        assert SnapshotBlob(s', id) == body;
      } else {
        assert SnapshotBlob(s', e) == SnapshotBlob(s, e);
      }
    }
  }

  function ShownSnapshot(t: BlobTable, row: Execution, body: Option<Id>): Option<Envelope> {
    if row.snapshot.None? then None else Some(Original(t, row.snapshot.value, body))
  }

  /** After preparing an execution, its two references are owed and the store means the same. */
  lemma PrepareStage(s: Store, rec: ExecutionRecord, uuid: Id, uuid2: Id)
    requires Layout(s) && Accounted(s, multiset{}) && Bag(rec.responseBlob) <= s.books.handles
    ensures var p := Prepare(s.blobs, rec, uuid, uuid2);
            && (p.Err? ==> p.error.0 == s.blobs)
            && (p.Ok? ==>
                  var s' := TakeOver(s, p.value.table, rec.responseBlob);
                  && Layout(s') && Plain(s') == Plain(s)
                  && Accounted(s', Bag(p.value.body) + Bag(p.value.response))
                  && (p.value.snapshot.None? <==> rec.snapshot.None?)
                  && (rec.snapshot.None? ==> p.value.body.None?)
                  && (rec.snapshot.Some? ==>
                        && StoredOk(p.value.table, p.value.snapshot.value, p.value.body)
                        && Original(p.value.table, p.value.snapshot.value, p.value.body) == Sanitize(rec.snapshot.value))
                  && (StoresPreview(rec) ==> HoldsData(p.value.table, p.value.response.value, rec.preview.value)))
  {
    var x := TakeSnapshot(s.blobs, rec.snapshot, uuid);
    if x.Ok? {
      SnapshotStage(s, rec.snapshot, uuid);
      var s1 := s.(blobs := x.value.table);
      if StoresPreview(rec) {
        PreviewStage(s1, x.value, rec, uuid2);
      } else {
        TakeBackStage(s1, Bag(rec.responseBlob), Bag(x.value.blob));
      }
    }
  }

  lemma SnapshotStage(s: Store, e: Option<Envelope>, uuid: Id)
    requires Layout(s) && Accounted(s, multiset{}) && TakeSnapshot(s.blobs, e, uuid).Ok?
    ensures var x := TakeSnapshot(s.blobs, e, uuid).value;
            var s' := s.(blobs := x.table);
            && Layout(s') && Accounted(s', Bag(x.blob)) && Plain(s') == Plain(s)
            && Release(x.table, Bag(x.blob)) == s.blobs
            && (e.None? ==> x.blob.None? && x.envelope.None?)
            && (e.Some? ==> x.envelope.Some? && StoredOk(x.table, x.envelope.value, x.blob)
                            && Original(x.table, x.envelope.value, x.blob) == Sanitize(e.value))
  {
    if e.Some? {
      ExternalizeStage(s, Sanitize(e.value), uuid);
      assert forall o :: multiset{} + Bag(o) == Bag(o);
    } else {
      ReleaseNothing(s.blobs);
    }
  }

  lemma PreviewStage(s: Store, x: Snapshot, rec: ExecutionRecord, uuid: Id)
    requires Layout(s) && Accounted(s, Bag(x.blob)) && s.blobs == x.table && StoresPreview(rec)
    requires x.envelope.Some? ==> StoredOk(x.table, x.envelope.value, x.blob)
    ensures var p := PutBlob(s.blobs, rec.preview.value, uuid);
            && (p.result.Err? ==> p.table == s.blobs)
            && (p.result.Ok? ==>
                  var s' := TakeOver(s, p.table, rec.responseBlob);
                  && Layout(s') && Plain(s') == Plain(s)
                  && Accounted(s', Bag(x.blob) + Bag(Some(p.result.value)))
                  && HoldsData(p.table, p.result.value, rec.preview.value)
                  && (x.envelope.Some? ==>
                        && StoredOk(p.table, x.envelope.value, x.blob)
                        && Original(p.table, x.envelope.value, x.blob) == Original(x.table, x.envelope.value, x.blob)))
  {
    var p := PutBlob(s.blobs, rec.preview.value, uuid);
    PutBlobKeeps(s.blobs, rec.preview.value, uuid);
    if p.result.Ok? {
      PutStage(s, rec.preview.value, uuid, Bag(x.blob));
      assert s.books.handles - Bag(rec.responseBlob) == s.books.handles;
      assert TakeOver(s, p.table, rec.responseBlob) == s.(blobs := p.table);
    }
  }

  /**
   * Recording an execution either inserts it, with the snapshot it was given, or leaves every
   * table as it was; on a duplicate id the caller's reference is used up all the same.
   */
  lemma RecordExecutionLaw(s: Store, rec: ExecutionRecord, uuid: Id, uuid2: Id)
    requires StoreOk(s) && Bag(rec.responseBlob) <= s.books.handles
    ensures var f := RecordExecution(s, rec, uuid, uuid2);
            && StoreOk(f.store)
            && f.store.tree == s.tree && f.store.requests == s.requests && f.store.books.leaked == s.books.leaked
            && (f.outcome.Failed? <==> rec.id in s.executions || Prepare(s.blobs, rec, uuid, uuid2).Err?)
            && (f.outcome.Failed? ==> Plain(f.store) == Plain(s))
            && (f.outcome.Done? ==> Plain(f.store) == PlainRecord(Plain(s), rec.id, SanitizedSnapshot(rec)))
  {
    var p := Prepare(s.blobs, rec, uuid, uuid2);
    PrepareStage(s, rec, uuid, uuid2);
    if p.Ok? {
      var s1 := TakeOver(s, p.value.table, rec.responseBlob);
      if rec.id in s.executions {
        var bag := Bag(p.value.body) + Bag(p.value.response);
        assert multiset{} + bag == bag;
        ReleaseStage(s1, bag, multiset{});
      } else {
        var preview := if StoresPreview(rec) then Some(CharPrefix(rec.preview.value, 4096)) else rec.preview;
        var row := Execution(p.value.snapshot, preview, p.value.response);
        InsertStage(s1, rec.id, row, p.value.body);
        PlainInsert(s1, rec.id, row, p.value.body);
        assert ShownSnapshot(s1.blobs, row, p.value.body) == SanitizedSnapshot(rec);
      }
    }
  }

  lemma ReleaseBag(t: BlobTable, blob: Option<Id>, b: Id)
    requires TableOk(t)
    ensures Release(t, Bag(blob) + multiset{b}) == Release(Release(t, Bag(blob)), multiset{b})
  {
    if blob.Some? {
      ReleaseStep(t, blob.value, multiset{b});
    } else {
      ReleaseNothing(t);
      assert Bag(blob) + multiset{b} == multiset{b};
    }
  }

  lemma ReleaseUnknown(t: BlobTable, b: Id)
    requires b !in t.rows
    ensures Release(t, multiset{b}) == t
  {
    assert Release(t, multiset{b}).rows == t.rows;
  }

  /** Recording with an unheld response blob, unfolded: nothing is prepared but the snapshot. */
  lemma UnheldUnfold(s: Store, rec: ExecutionRecord, b: Id, uuid: Id, uuid2: Id)
    requires rec.responseBlob == Some(b) && b !in s.books.handles
    ensures var x := TakeSnapshot(s.blobs, rec.snapshot, uuid);
            var f := RecordExecution(s, rec, uuid, uuid2).store;
            && (Prepare(s.blobs, rec, uuid, uuid2).Err? <==> x.Err?)
            && (x.Err? ==> f == s)
            && (x.Ok? ==>
                  var s1 := s.(blobs := x.value.table);
                  f == if rec.id in s.executions
                       then s1.(blobs := Release(x.value.table, Bag(x.value.blob) + multiset{b}))
                       else InsertExecution(s1, rec.id, Execution(x.value.envelope, rec.preview, Some(b)), x.value.blob))
  {
    hide TakeSnapshot, Release;
    assert s.books.handles - multiset{b} == s.books.handles;
    assert Bag(Some(b)) == multiset{b};
  }

  /** What recording does when the caller passes on a response blob without holding a reference to it. */
  lemma UnheldRecord(s: Store, rec: ExecutionRecord, b: Id, uuid: Id, uuid2: Id)
    requires StoreOk(s) && rec.responseBlob == Some(b) && b !in s.books.handles
    ensures var f := RecordExecution(s, rec, uuid, uuid2);
            && (Prepare(s.blobs, rec, uuid, uuid2).Err? ==> f.store == s)
            && (Prepare(s.blobs, rec, uuid, uuid2).Ok? && rec.id in s.executions ==>
                  f.store == s.(blobs := Release(s.blobs, multiset{b})))
            && (Prepare(s.blobs, rec, uuid, uuid2).Ok? && rec.id !in s.executions ==>
                  RefCount(f.store.blobs, b) + 1 == Holders(f.store, b) + f.store.books.leaked[b])
  {
    var x := TakeSnapshot(s.blobs, rec.snapshot, uuid);
    UnheldUnfold(s, rec, b, uuid, uuid2);
    if x.Ok? {
      SnapshotStage(s, rec.snapshot, uuid);
      var s1 := s.(blobs := x.value.table);
      hide RecordExecution, Prepare, TakeSnapshot, InsertExecution, Release, Holders, StoredOk, Plain;
      if rec.id in s.executions {
        ReleaseBag(x.value.table, x.value.blob, b);
      } else {
        UnheldInsert(s1, rec.id, Execution(x.value.envelope, rec.preview, Some(b)), x.value.blob, b);
      }
    }
  }

  lemma UnheldInsert(s: Store, id: Id, row: Execution, body: Option<Id>, b: Id)
    requires SnapshotsFit(s) && id !in s.executions && Accounted(s, Bag(body)) && row.responseBlob == Some(b)
    ensures var s' := InsertExecution(s, id, row, body);
            RefCount(s'.blobs, b) + 1 == Holders(s', b) + s'.books.leaked[b]
  {
    SnapshotsInsert(s.books.snapshots, id, body, b);
    ResponsesInsert(s.executions, id, row, b);
    assert RefCount(s.blobs, b) == Holders(s, b) + s.books.leaked[b] + Bag(body)[b];
  }

  /**
   * Recording keeps the store consistent exactly when the caller holds the response blob it passes on,
   * when the recording fails before anything is written, or when a duplicate execution names a blob
   * that does not exist.
   */
  lemma RecordKeepsExactly(s: Store, rec: ExecutionRecord, b: Id, uuid: Id, uuid2: Id)
    requires StoreOk(s) && rec.responseBlob == Some(b)
    ensures StoreOk(RecordExecution(s, rec, uuid, uuid2).store) <==>
            || b in s.books.handles
            || Prepare(s.blobs, rec, uuid, uuid2).Err?
            || (rec.id in s.executions && b !in s.blobs.rows)
  {
    if b in s.books.handles {
      RecordExecutionLaw(s, rec, uuid, uuid2);
    } else {
      var f := RecordExecution(s, rec, uuid, uuid2);
      UnheldRecord(s, rec, b, uuid, uuid2);
      hide RecordExecution, Prepare, Layout, TreeOk, TableOk, Holders;
      if Prepare(s.blobs, rec, uuid, uuid2).Ok? {
        if rec.id !in s.executions {
          CountsOff(f.store, b, 1);
        } else if b !in s.blobs.rows {
          ReleaseUnknown(s.blobs, b);
        } else {
          ReleaseLowersCount(s, b);
        }
      }
    }
  }

  lemma CountsAgree(s: Store, b: Id)
    requires Accounted(s, multiset{})
    ensures RefCount(s.blobs, b) == Holders(s, b) + s.books.leaked[b]
  {
    assert RefCount(s.blobs, b) == Holders(s, b) + s.books.leaked[b] + multiset{}[b];
  }

  lemma CountsOff(s: Store, b: Id, missing: nat)
    requires RefCount(s.blobs, b) + missing == Holders(s, b) + s.books.leaked[b] && missing > 0
    ensures !StoreOk(s)
  {
    if StoreOk(s) {
      CountsAgree(s, b);
    }
  }

  /** Releasing a reference that nobody gave up. */
  lemma ReleaseLowersCount(s: Store, b: Id)
    requires StoreOk(s) && b in s.blobs.rows
    ensures !StoreOk(s.(blobs := Release(s.blobs, multiset{b})))
    ensures RefCount(Release(s.blobs, multiset{b}), b) == RefCount(s.blobs, b) - 1
  {
    var s' := s.(blobs := Release(s.blobs, multiset{b}));
    assert RefCount(s.blobs, b) == Holders(s, b) + s.books.leaked[b] + multiset{}[b];
    assert Holders(s', b) == Holders(s, b);
    CountsOff(s', b, 1);
  }

  /** The worst case: a duplicate execution that names the only reference of a request's body loses that body. */
  lemma UnheldDuplicateLosesBody(s: Store, rec: ExecutionRecord, r: Id, b: Id, uuid: Id, uuid2: Id)
    requires StoreOk(s) && r in s.requests && s.requests[r].bodyBlob == Some(b) && RefCount(s.blobs, b) == 1
    requires rec.responseBlob == Some(b) && rec.id in s.executions && Prepare(s.blobs, rec, uuid, uuid2).Ok?
    ensures var f := RecordExecution(s, rec, uuid, uuid2);
            f.store.requests == s.requests && GetRequest(s, r).Ok? && GetRequest(f.store, r) == Err(NotFound(b))
  {
    NamedIsCounted(BodyColumn(s.requests), r);
    assert RefCount(s.blobs, b) == Holders(s, b) + s.books.leaked[b] + multiset{}[b];
    UnheldRecord(s, rec, b, uuid, uuid2);
    ReleaseLowersCount(s, b);
    ReadsBack(s.blobs, b);
  }

  /** A long preview is kept whole in a blob: reading the execution shows all of it. */
  lemma LongPreviewKept(s: Store, rec: ExecutionRecord, uuid: Id, uuid2: Id)
    requires StoreOk(s) && StoresPreview(rec) && RecordExecution(s, rec, uuid, uuid2).outcome.Done?
    ensures var f := RecordExecution(s, rec, uuid, uuid2);
            && f.store.executions[rec.id].responseBlob.Some?
            && ReadBlob(f.store.blobs, f.store.executions[rec.id].responseBlob.value) == Ok(rec.preview.value)
  {
    var f := RecordExecution(s, rec, uuid, uuid2);
    assert Bag(rec.responseBlob) <= s.books.handles;
    PrepareStage(s, rec, uuid, uuid2);
    var p := Prepare(s.blobs, rec, uuid, uuid2).value;
    assert f.store.blobs == p.table && f.store.executions[rec.id].responseBlob == p.response;
    ReadsBack(p.table, p.response.value);
  }

  /** A request goes with a project when it names the project or is filed in one of its collections. */
  predicate GoesWith(s: Store, r: Id, id: Id)
    requires r in s.requests
  {
    || s.requests[r].project == id
    || (s.requests[r].collection in s.tree.collections && s.tree.collections[s.requests[r].collection].project == id)
  }

  ghost predicate RequestsWithout(s: Store, s': Store, id: Id) {
    && (forall r :: r in s'.requests <==> r in s.requests && !GoesWith(s, r, id))
    && (forall r :: r in s'.requests ==> Plain(s').requests[r] == Plain(s).requests[r])
    && Plain(s').snapshots == Plain(s).snapshots
  }

  lemma ProjectRequestsGone(s: Store, id: Id)
    requires TreeOk(s.tree)
    ensures forall r :: r in s.requests - RequestsOf(s.requests, id) - Misfiled(s, id) <==>
              r in s.requests && !GoesWith(s, r, id)
  {
    ProjectCascade(s.tree, id);
    hide TreeOk, Cascade;
  }

  lemma RequestsLeft(s: Store, s': Store, gone: set<Id>, more: set<Id>, id: Id)
    requires s'.requests == s.requests - gone - more && Plain(s').requests == Plain(s).requests - gone - more
    requires Plain(s').snapshots == Plain(s).snapshots
    requires forall r :: r in s.requests - gone - more <==> r in s.requests && !GoesWith(s, r, id)
    ensures RequestsWithout(s, s', id)
  {
    PlainKeys(s);
    PlainKeys(s');
    hide Plain, GoesWith;
  }

  lemma PlainKeys(s: Store)
    ensures Plain(s).requests.Keys == s.requests.Keys
  {
    hide PlainRequest, PlainSnapshot;
  }

  /** What deleting a project leaves, in terms of the rows themselves. */
  lemma DeletedProjectExactly(s: Store, id: Id)
    requires StoreOk(s)
    ensures var f := DeleteProject(s, id);
            f.outcome.Done? ==>
              && RequestsWithout(s, f.store, id)
              && f.store.tree.projects == s.tree.projects - {id}
              && (forall m :: m in f.store.tree.modules <==> m in s.tree.modules && s.tree.modules[m].project != id)
              && (forall c :: c in f.store.tree.collections <==> c in s.tree.collections && s.tree.collections[c].project != id)
              && (forall c :: c in f.store.tree.collections ==> f.store.tree.collections[c] == s.tree.collections[c])
  {
    DeleteProjectLaw(s, id);
    assert TreeOk(s.tree);
    ProjectRequestsGone(s, id);
    PruneProjectExactly(s.tree, id);
    var f := DeleteProject(s, id);
    if f.outcome.Done? {
      assert f.store.requests == s.requests - RequestsOf(s.requests, id) - Misfiled(s, id);
      hide StoreOk, Plain, PruneProject, TreeOk, Misfiled, RequestsOf, DeleteProject, RequestsWithout;
      RequestsLeft(s, f.store, RequestsOf(s.requests, id), Misfiled(s, id), id);
    }
  }

  /** The preview of a recorded execution reads back whole, however long it is. */
  lemma PreviewReadsBack(s: Store, rec: ExecutionRecord, uuid: Id, uuid2: Id)
    requires StoreOk(s) && rec.responseBlob.None? && RecordExecution(s, rec, uuid, uuid2).outcome.Done?
    ensures var g := GetExecution(RecordExecution(s, rec, uuid, uuid2).store, rec.id);
            g.Ok? ==> g.value.Some? && g.value.value.1 == rec.preview
  {
    if StoresPreview(rec) {
      LongPreviewKept(s, rec, uuid, uuid2);
    }
  }

  /** A cut text is a beginning of the text, and it ends at a character. */
  lemma {:induction false} CharPrefixIs(text: Bytes, n: nat)
    ensures CharPrefix(text, n) <= text
    ensures LeadBytes(CharPrefix(text, n)) == if LeadBytes(text) <= n then LeadBytes(text) else n
    ensures CharPrefix(text, n) != text ==> !(128 <= text[|CharPrefix(text, n)|] < 192)
    decreases |text|
  {
    if text != [] {
      var lead := !(128 <= text[0] < 192);
      if !lead || n > 0 {
        CharPrefixIs(text[1..], if lead then n - 1 else n);
        assert text == [text[0]] + text[1..];
        var cut := CharPrefix(text, n);
        assert cut[1..] == CharPrefix(text[1..], if lead then n - 1 else n);
      }
    }
  }

  /** How many characters begin in a text. */
  function LeadBytes(text: Bytes): nat {
    if text == [] then 0 else (if 128 <= text[0] < 192 then 0 else 1) + LeadBytes(text[1..])
  }

  function SanitizedSnapshot(rec: ExecutionRecord): Option<Envelope> {
    if rec.snapshot.None? then None else Some(Sanitize(rec.snapshot.value))
  }
}
