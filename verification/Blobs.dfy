/**
 * The content-addressed blob table: one row and one file per digest, with a reference count.
 * SHA-256 is idealised as an injective constructor, so equal digests mean equal bytes.
 */
module Blobs {
  import opened Base
  import opened Forest
  import opened Tree
  import opened Envelope

  const BLOB_THRESHOLD_BYTES: nat := 64 * 1024

  /** The bytes of `@apivoy-blob:`. */
  const MARKER: Bytes := [64, 97, 112, 105, 118, 111, 121, 45, 98, 108, 111, 98, 58]

  datatype Digest = Sha256(data: Bytes)

  datatype Blob = Blob(digest: Digest, refCount: int)

  datatype BlobTable = BlobTable(rows: map<Id, Blob>, files: map<Digest, Bytes>)

  datatype Put = Put(table: BlobTable, result: Result<Id, StoreError>)

  /** Counts are positive, digests are unique, and the files are exactly the rows' contents. */
  ghost predicate TableOk(t: BlobTable) {
    RowsOk(t.rows) && FilesOk(t)
  }

  ghost predicate RowsOk(rows: map<Id, Blob>) {
    && (forall b :: b in rows ==> rows[b].refCount >= 1)
    && (forall b, c :: b in rows && c in rows && rows[b].digest == rows[c].digest ==> b == c)
  }

  ghost predicate FilesOk(t: BlobTable) {
    && t.files.Keys == Digests(t.rows)
    && (forall d :: d in t.files ==> t.files[d] == d.data)
  }

  function Digests(rows: map<Id, Blob>): set<Digest> {
    set b | b in rows :: rows[b].digest
  }

  function RefCount(t: BlobTable, b: Id): int {
    if b in t.rows then t.rows[b].refCount else 0
  }

  ghost function BlobWith(t: BlobTable, d: Digest): Option<Id> {
    if b :| b in t.rows && t.rows[b].digest == d then Some(b) else None
  }

  /** Storing bytes bumps the count of the row that already has them, or adds a row and a file. */
  ghost function PutBlob(t: BlobTable, data: Bytes, uuid: Id): Put {
    var existing := BlobWith(t, Sha256(data));
    if existing.Some? then
      var b := existing.value;
      Put(t.(rows := t.rows[b := t.rows[b].(refCount := t.rows[b].refCount + 1)]), Ok(b))
    else if uuid in t.rows then Put(t, Err(Sqlite))
    else Put(BlobTable(t.rows[uuid := Blob(Sha256(data), 1)], t.files[Sha256(data) := data]), Ok(uuid))
  }

  function Remaining(rows: map<Id, Blob>, bag: multiset<Id>): map<Id, Blob> {
    map b | b in rows && (bag[b] == 0 || bag[b] < rows[b].refCount)
      :: rows[b].(refCount := rows[b].refCount - bag[b])
  }

  /** Dropping a whole bag of references at once, whatever order the rows come back in. */
  function Release(t: BlobTable, bag: multiset<Id>): BlobTable {
    var rows := Remaining(t.rows, bag);
    BlobTable(rows, t.files - set b | b in t.rows && b !in rows :: t.rows[b].digest)
  }

  function ReadBlob(t: BlobTable, b: Id): Result<Bytes, StoreError> {
    if b !in t.rows then Err(NotFound(b))
    else if t.rows[b].digest !in t.files then Err(Io)
    else Ok(t.files[t.rows[b].digest])
  }

  lemma PutBlobKeeps(t: BlobTable, data: Bytes, uuid: Id)
    requires TableOk(t)
    ensures var p := PutBlob(t, data, uuid);
            && TableOk(p.table)
            && (p.result.Err? ==> p.table == t && uuid in t.rows)
            && (p.result.Ok? ==> Counted(t, p.table, p.result.value) && HoldsData(p.table, p.result.value, data))
            && SameContents(t, p.table)
  {
    var existing := BlobWith(t, Sha256(data));
    if existing.Some? {
      BumpKeeps(t, existing.value);
    } else if uuid !in t.rows {
      AddKeeps(t, uuid, data);
    }
  }

  ghost predicate HoldsData(t: BlobTable, b: Id, data: Bytes) {
    b in t.rows && t.rows[b].digest == Sha256(data)
  }

  /** Exactly one more reference to `b` is counted, and nothing else changed. */
  ghost predicate Counted(t: BlobTable, t': BlobTable, b: Id) {
    forall c :: RefCount(t', c) == RefCount(t, c) + (if c == b then 1 else 0)
  }

  ghost predicate SameContents(t: BlobTable, t': BlobTable) {
    forall b :: b in t.rows ==> b in t'.rows && t'.rows[b].digest == t.rows[b].digest
  }

  lemma BumpKeeps(t: BlobTable, b: Id)
    requires TableOk(t) && b in t.rows
    ensures var t' := t.(rows := t.rows[b := t.rows[b].(refCount := t.rows[b].refCount + 1)]);
            TableOk(t') && Counted(t, t', b) && SameContents(t, t')
  {
    var t' := t.(rows := t.rows[b := t.rows[b].(refCount := t.rows[b].refCount + 1)]);
    DigestsSame(t.rows, t'.rows);
  }

  lemma DigestsSame(rows: map<Id, Blob>, rows': map<Id, Blob>)
    requires rows.Keys == rows'.Keys && forall b :: b in rows ==> rows'[b].digest == rows[b].digest
    ensures Digests(rows) == Digests(rows')
  {
    forall d | d in Digests(rows) ensures d in Digests(rows') {
      var b :| b in rows && rows[b].digest == d;
      assert rows'[b].digest == d;
    }
    forall d | d in Digests(rows') ensures d in Digests(rows) {
      var b :| b in rows' && rows'[b].digest == d;
      assert rows[b].digest == d;
    }
  }

  lemma AddKeeps(t: BlobTable, b: Id, data: Bytes)
    requires TableOk(t) && b !in t.rows && Sha256(data) !in Digests(t.rows)
    ensures var t' := BlobTable(t.rows[b := Blob(Sha256(data), 1)], t.files[Sha256(data) := data]);
            TableOk(t') && Counted(t, t', b) && SameContents(t, t')
  {
    var rows' := t.rows[b := Blob(Sha256(data), 1)];
    assert Digests(rows') == Digests(t.rows) + {Sha256(data)} by {
      forall d | d in Digests(t.rows) + {Sha256(data)} ensures d in Digests(rows') {
        if d == Sha256(data) {
          assert rows'[b].digest == d;
        } else {
          var c :| c in t.rows && t.rows[c].digest == d;
          assert rows'[c].digest == d;
        }
      }
    }
    assert forall c :: c in t.rows ==> t.rows[c].digest in Digests(t.rows);
  }

  lemma ReadsBack(t: BlobTable, b: Id)
    requires TableOk(t) && b in t.rows
    ensures ReadBlob(t, b) == Ok(t.rows[b].digest.data)
  {
    assert t.rows[b].digest in Digests(t.rows);
  }

  /** Releasing never more than is counted subtracts exactly the bag and drops the emptied rows. */
  lemma ReleaseKeeps(t: BlobTable, bag: multiset<Id>)
    requires TableOk(t)
    requires forall b :: bag[b] <= RefCount(t, b)
    ensures TableOk(Release(t, bag))
    ensures forall b :: RefCount(Release(t, bag), b) == RefCount(t, b) - bag[b]
    ensures SameContents(Release(t, bag), t)
  {
    var t' := Release(t, bag);
    forall b ensures RefCount(t', b) == RefCount(t, b) - bag[b] {
      assert bag[b] <= RefCount(t, b);
    }
    ReleaseFiles(t, bag);
  }

  lemma ReleaseFiles(t: BlobTable, bag: multiset<Id>)
    requires TableOk(t)
    ensures FilesOk(Release(t, bag))
  {
    var t' := Release(t, bag);
    forall d | d in t'.files ensures d in Digests(t'.rows) {
      var b :| b in t.rows && t.rows[b].digest == d;
      assert t'.rows[b].digest == d;
    }
    forall d | d in Digests(t'.rows) ensures d in t'.files {
      var b :| b in t'.rows && t'.rows[b].digest == d;
      assert t.rows[b].digest == d;
    }
  }

  lemma RemainingStep(rows: map<Id, Blob>, b: Id, bag: multiset<Id>)
    requires forall c :: c in rows ==> rows[c].refCount >= 1
    ensures Remaining(Remaining(rows, multiset{b}), bag) == Remaining(rows, multiset{b} + bag)
  {
    var both := multiset{b} + bag;
    var one := multiset{b};
    forall c ensures both[c] == one[c] + bag[c] && one[c] <= 1 {
      if c == b {
        assert one[c] == 1;
      } else {
        assert one[c] == 0;
      }
    }
  }

  /** Releasing one reference and then a bag is releasing both together. */
  lemma ReleaseStep(t: BlobTable, b: Id, bag: multiset<Id>)
    requires TableOk(t)
    ensures TableOk(Release(t, multiset{b}))
    ensures Release(Release(t, multiset{b}), bag) == Release(t, multiset{b} + bag)
  {
    var one := Release(t, multiset{b});
    ReleaseFiles(t, multiset{b});
    RemainingStep(t.rows, b, bag);
    ReleaseFiles(t, multiset{b} + bag);
    ReleaseFiles(one, bag);
    FilesDetermined(Release(one, bag), Release(t, multiset{b} + bag));
  }

  lemma FilesDetermined(t: BlobTable, t': BlobTable)
    requires FilesOk(t) && FilesOk(t') && t.rows == t'.rows
    ensures t == t'
  {
    assert t.files == t'.files;
  }

  lemma ReleaseNothing(t: BlobTable)
    ensures Release(t, multiset{}) == t
  {
    assert Release(t, multiset{}).rows == t.rows;
  }

  // ----- bodies in and out of the blob table -----

  predicate IsLarge(e: Envelope) {
    Body(e).Some? && |Body(e).value| > BLOB_THRESHOLD_BYTES
  }

  datatype Externalized = Externalized(table: BlobTable, envelope: Envelope, blob: Option<Id>)

  /** A body over the threshold moves to a blob and leaves a marker behind. */
  ghost function Externalize(t: BlobTable, e: Envelope, uuid: Id): Result<Externalized, StoreError> {
    if !IsLarge(e) then Ok(Externalized(t, e, None))
    else
      var p := PutBlob(t, Body(e).value, uuid);
      if p.result.Err? then Err(p.result.error)
      else Ok(Externalized(p.table, WithBody(e, MARKER + p.result.value), Some(p.result.value)))
  }

  function MarkedBlob(e: Envelope): Option<Id> {
    if Body(e).Some? && MARKER <= Body(e).value then Some(Body(e).value[|MARKER|..]) else None
  }

  /** Reading a stored envelope back: from its blob column, else from a marker in its body. */
  function Hydrate(t: BlobTable, e: Envelope, blob: Option<Id>): Result<Envelope, StoreError> {
    var source := if blob.Some? then blob else MarkedBlob(e);
    if source.None? then Ok(e)
    else
      var bytes := ReadBlob(t, source.value);
      if bytes.Err? then Err(bytes.error) else Ok(WithBody(e, bytes.value))
  }

  /** How a saved envelope is laid out: inline when small, else a marker naming a blob of its body. */
  ghost predicate StoredOk(t: BlobTable, e: Envelope, blob: Option<Id>) {
    if blob.None? then !IsLarge(e)
    else
      && e.payload.Http? && e.payload.body == Some(MARKER + blob.value)
      && blob.value in t.rows && |t.rows[blob.value].digest.data| > BLOB_THRESHOLD_BYTES
  }

  /** The envelope a stored row stands for. */
  function Original(t: BlobTable, e: Envelope, blob: Option<Id>): Envelope {
    if blob.Some? && blob.value in t.rows then WithBody(e, t.rows[blob.value].digest.data) else e
  }

  lemma ExternalizeKeeps(t: BlobTable, e: Envelope, uuid: Id)
    requires TableOk(t)
    ensures var x := Externalize(t, e, uuid);
            x.Ok? ==>
              && StoredOk(x.value.table, x.value.envelope, x.value.blob)
              && Original(x.value.table, x.value.envelope, x.value.blob) == e
              && x.value.envelope.id == e.id
              && (x.value.blob.None? ==> x.value.table == t)
  {
    if IsLarge(e) {
      PutBlobKeeps(t, Body(e).value, uuid);
    }
  }

  /**
   * A row reads back as the envelope it stands for exactly when its body was externalised, does
   * not start with the marker, or happens to name a blob holding that very body.
   */
  lemma HydrateExactly(t: BlobTable, e: Envelope, blob: Option<Id>)
    requires TableOk(t) && StoredOk(t, e, blob)
    ensures Hydrate(t, e, blob) == Ok(Original(t, e, blob)) <==>
            || blob.Some?
            || MarkedBlob(e).None?
            || ReadBlob(t, MarkedBlob(e).value) == Ok(Body(e).value)
  {
    if blob.None? && MarkedBlob(e).Some? {
      var bytes := ReadBlob(t, MarkedBlob(e).value);
      if bytes.Ok? {
        assert WithBody(e, bytes.value) == e <==> bytes.value == Body(e).value;
      }
    }
  }
}
