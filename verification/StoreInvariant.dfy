/** What every transaction keeps. */
module StoreInvariant {
  import opened Prelude
  import opened Types
  import opened Tables
  import opened Ordering
  import opened JobQueue
  import opened StoreSpec

  // -------------------------------------------------------------------------
  // The invariant
  // -------------------------------------------------------------------------

  ghost predicate KeysUnique(rows: Rows) {
    forall i, j :: i in rows.rows && j in rows.rows && SameKey(rows.rows[i], rows.rows[j]) ==> i == j
  }

  /** All rows of one (document, model) pair share one state. */
  ghost predicate Homogeneous(rows: Rows) {
    forall i, j :: i in rows.rows && j in rows.rows
                   && IsPair(rows.rows[i], rows.rows[j].documentId, rows.rows[j].modelId) ==>
      rows.rows[i].state == rows.rows[j].state
  }

  ghost predicate RowsOk(rows: Rows) { IdsBelow(rows) && KeysUnique(rows) && Homogeneous(rows) }

  predicate SamePath(documents: Table<Document>, i: int, j: int)
    requires i in documents.rows && j in documents.rows
  {
    documents.rows[i].filepath == documents.rows[j].filepath
  }

  /** No unique index enforces this one. */
  ghost predicate PathsUnique(documents: Table<Document>) {
    forall i, j :: i in documents.rows && j in documents.rows && SamePath(documents, i, j) ==> i == j
  }

  ghost predicate ModelsOk(models: Table<EmbeddingIdentity>) {
    && IdsBelow(models)
    && (forall i, j :: i in models.rows && j in models.rows && models.rows[i] == models.rows[j] ==> i == j)
    && forall i :: i in models.rows ==> models.rows[i].dimensions > 0
  }

  /** Foreign keys, and every Embedded row holds a vector of its model's length. */
  ghost predicate RowIsSound(db: Db, row: EmbeddingRow) {
    && row.documentId in db.documents.rows
    && row.modelId in db.models.rows
    && (row.state == Embedded ==>
          row.embedding.Some? && |row.embedding.value| == F32_BYTES * db.models.rows[row.modelId].dimensions)
  }

  ghost predicate RowsSound(db: Db) {
    forall id :: id in db.embeddings.rows ==> RowIsSound(db, db.embeddings.rows[id])
  }

  /** Every vector in the index is an Embedded row with the same bytes. */
  ghost predicate VecSound(vec: Option<VecTable>, rows: Rows) {
    vec.Some? ==> forall id :: id in vec.value.entries ==>
      id in rows.rows && rows.rows[id].state == Embedded
      && rows.rows[id].embedding == Some(vec.value.entries[id])
  }

  ghost predicate Inv(db: Db) {
    && IdsBelow(db.documents) && PathsUnique(db.documents)
    && ModelsOk(db.models)
    && RowsOk(db.embeddings)
    && JobsOk(db.jobs)
    && RowsSound(db)
    && VecSound(db.vec, db.embeddings)
    && (db.search.Some? ==> db.search.value.activeModelId in db.models.rows)
  }

  /** Every Embedded row of the model is in the index. */
  ghost predicate VecHolds(vec: VecTable, rows: Rows, modelId: int) {
    forall id :: id in rows.rows && rows.rows[id].modelId == modelId && rows.rows[id].state == Embedded ==>
      id in vec.entries
  }

  ghost predicate IndexComplete(db: Db) {
    db.vec.Some? && db.search.Some? ==> VecHolds(db.vec.value, db.embeddings, db.search.value.activeModelId)
  }

  lemma RowsOkParts(rows: Rows)
    requires RowsOk(rows)
    ensures IdsBelow(rows) && KeysUnique(rows) && Homogeneous(rows)
  {
  }

  lemma InvParts(db: Db)
    requires Inv(db)
    ensures RowsOk(db.embeddings) && JobsOk(db.jobs)
  {
  }

  lemma EmptyDbIsSound()
    ensures Inv(EMPTY_DB) && IndexComplete(EMPTY_DB)
  {
  }

  // -------------------------------------------------------------------------
  // Effects on rows
  // -------------------------------------------------------------------------

  lemma MarkStaleKeepsRows(rows: Rows, docIds: set<int>)
    requires RowsOk(rows)
    ensures RowsOk(MarkStaleRows(rows, docIds))
  {
  }

  ghost predicate PairIsPending(rows: Rows, docId: int, modelId: int) {
    forall id :: id in rows.rows && IsPair(rows.rows[id], docId, modelId) ==> rows.rows[id].state == Pending
  }

  /** Outside the pair nothing changes. */
  ghost predicate OthersKept(before: Rows, after: Rows, docId: int, modelId: int) {
    && before.nextId <= after.nextId
    && (forall id :: id in before.rows && !IsPair(before.rows[id], docId, modelId) ==>
          id in after.rows && after.rows[id] == before.rows[id])
    && (forall id :: id in after.rows && !IsPair(after.rows[id], docId, modelId) ==>
          id in before.rows && before.rows[id] == after.rows[id])
    && (forall id :: id in after.rows && id !in before.rows ==> before.nextId <= id)
  }

  lemma UpsertPendingRowEffect(rows: Rows, docId: int, modelId: int, chunk: ChunkRef, now: int)
    requires RowsOk(rows) && PairIsPending(rows, docId, modelId)
    ensures var after := UpsertPendingRow(rows, docId, modelId, chunk, now);
            && RowsOk(after) && PairIsPending(after, docId, modelId)
            && OthersKept(rows, after, docId, modelId)
  {
  }

  lemma {:induction false} UpsertPendingRowsEffect(rows: Rows, docId: int, modelId: int,
                                                   chunks: seq<ChunkRef>, now: int)
    requires RowsOk(rows) && PairIsPending(rows, docId, modelId)
    ensures var after := UpsertPendingRows(rows, docId, modelId, chunks, now);
            && RowsOk(after) && PairIsPending(after, docId, modelId)
            && OthersKept(rows, after, docId, modelId)
  {
    if chunks != [] {
      var init := chunks[..|chunks| - 1];
      UpsertPendingRowsEffect(rows, docId, modelId, init, now);
      var mid := UpsertPendingRows(rows, docId, modelId, init, now);
      UpsertPendingRowEffect(mid, docId, modelId, chunks[|chunks| - 1], now);
      hide RowsOk, PairIsPending, UpsertPendingRow;
    }
  }

  lemma DeletePairRowsEffect(rows: Rows, docId: int, modelId: int)
    requires RowsOk(rows)
    ensures var after := DeletePairRows(rows, docId, modelId);
            && RowsOk(after) && OthersKept(rows, after, docId, modelId)
            && forall id :: id in after.rows ==> !IsPair(after.rows[id], docId, modelId)
  {
  }

  /** The new rows, in order, get the next ids. */
  ghost predicate Appended(before: Rows, after: Rows, added: seq<EmbeddingRow>) {
    && after.nextId == before.nextId + |added|
    && (forall id :: id in before.rows ==> id in after.rows && after.rows[id] == before.rows[id])
    && (forall id :: before.nextId <= id < after.nextId ==> id in after.rows)
    && (forall id :: id in after.rows && id !in before.rows ==>
          before.nextId <= id < after.nextId && after.rows[id] == added[id - before.nextId])
  }

  function EmbeddedRows(docId: int, modelId: int, chunks: seq<EmbeddedChunk>, now: int): seq<EmbeddingRow> {
    seq(|chunks|, k requires 0 <= k < |chunks| => EmbeddedRow(docId, modelId, chunks[k], now))
  }

  lemma AppendOne(before: Rows, mid: Rows, added: seq<EmbeddingRow>, row: EmbeddingRow)
    requires IdsBelow(before) && Appended(before, mid, added)
    ensures Appended(before, Insert(mid, row), added + [row])
  {
  }

  lemma {:induction false} InsertEmbeddedAppends(rows: Rows, docId: int, modelId: int,
                                                 chunks: seq<EmbeddedChunk>, now: int)
    requires IdsBelow(rows)
    ensures Appended(rows, InsertEmbeddedRows(rows, docId, modelId, chunks, now),
                     EmbeddedRows(docId, modelId, chunks, now))
  {
    if chunks != [] {
      var init, last := chunks[..|chunks| - 1], chunks[|chunks| - 1];
      InsertEmbeddedAppends(rows, docId, modelId, init, now);
      var mid := InsertEmbeddedRows(rows, docId, modelId, init, now);
      AppendOne(rows, mid, EmbeddedRows(docId, modelId, init, now), EmbeddedRow(docId, modelId, last, now));
      assert EmbeddedRows(docId, modelId, chunks, now)
          == EmbeddedRows(docId, modelId, init, now) + [EmbeddedRow(docId, modelId, last, now)];
    }
  }

  /** The pair is exactly the embedded chunks, under fresh ids in order. */
  ghost predicate PairHoldsChunks(before: Rows, after: Rows, docId: int, modelId: int,
                                  chunks: seq<EmbeddedChunk>, now: int)
  {
    && (forall id :: id in after.rows && IsPair(after.rows[id], docId, modelId) ==>
          && before.nextId <= id < before.nextId + |chunks|
          && after.rows[id] == EmbeddedRow(docId, modelId, chunks[id - before.nextId], now))
    && (forall id :: before.nextId <= id < before.nextId + |chunks| ==>
          id in after.rows && IsPair(after.rows[id], docId, modelId))
  }

  lemma ReplacedRowsShape(db: Db, docId: int, modelId: int, chunks: seq<EmbeddedChunk>, now: int)
    requires RowsOk(db.embeddings)
    ensures var after := ReplacedRows(db, docId, modelId, chunks, now);
            && OthersKept(db.embeddings, after, docId, modelId)
            && PairHoldsChunks(db.embeddings, after, docId, modelId, chunks, now)
            && IdsBelow(after)
  {
    var kept := DeletePairRows(db.embeddings, docId, modelId);
    DeletePairRowsEffect(db.embeddings, docId, modelId);
    InsertEmbeddedAppends(kept, docId, modelId, chunks, now);
    hide InsertEmbeddedRows, KeysUnique, Homogeneous;
  }

  lemma ReplacedRowsEffect(db: Db, docId: int, modelId: int, chunks: seq<EmbeddedChunk>, now: int)
    requires RowsOk(db.embeddings) && DistinctChunks(chunks)
    ensures var after := ReplacedRows(db, docId, modelId, chunks, now);
            && RowsOk(after)
            && OthersKept(db.embeddings, after, docId, modelId)
            && PairHoldsChunks(db.embeddings, after, docId, modelId, chunks, now)
  {
    ReplacedRowsShape(db, docId, modelId, chunks, now);
    hide ReplacedRows;
    var after := ReplacedRows(db, docId, modelId, chunks, now);
    forall i, j | i in after.rows && j in after.rows && SameKey(after.rows[i], after.rows[j])
      ensures i == j
    {
    }
  }
}
