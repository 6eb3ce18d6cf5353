/** What writing a document leaves in the tables. */
module DocumentWrites {
  import opened Prelude
  import opened Types
  import opened Tables
  import opened Ordering
  import opened JobQueue
  import opened StoreSpec
  import opened StoreInvariant
  import opened StoreSteps
  import opened EmbedResults
  import opened PlanThenEmbed

  /** A document is stored under the path with the same hash. */
  ghost predicate IsStored(db: Db, doc: Document) {
    exists id :: id in db.documents.rows && db.documents.rows[id].filepath == doc.filepath
                 && db.documents.rows[id].fileHash == doc.fileHash
  }

  lemma FoundByPath(db: Db, filepath: Path)
    requires Inv(db)
    ensures match FindByPath(db.documents, filepath)
            case None => forall id :: id in db.documents.rows ==> db.documents.rows[id].filepath != filepath
            case Some(found) =>
              && found in db.documents.rows && db.documents.rows[found].filepath == filepath
              && forall id :: id in db.documents.rows && db.documents.rows[id].filepath == filepath ==> id == found
  {
    hide FindByPath;
    var found := FindByPath(db.documents, filepath);
    forall id | id in db.documents.rows && db.documents.rows[id].filepath == filepath
      ensures found == Some(id)
    {
      FindsOwnPath(db, id);
    }
    FoundIsThere(db.documents, filepath);
  }

  lemma FoundIsThere(documents: Table<Document>, filepath: Path)
    ensures match FindByPath(documents, filepath)
            case None => true
            case Some(found) => found in documents.rows && documents.rows[found].filepath == filepath
  {
  }

  /** A write changes something exactly when no document of that path has that hash; then the document is
      stored as given, under the id of its path or a fresh one, and no other document changes. */
  lemma UpsertStores(db: Db, doc: Document)
    requires Inv(db)
    ensures UpsertDocument(db, doc).changed <==> !IsStored(db, doc)
    ensures var up := UpsertDocument(db, doc);
            if up.changed
            then
              && up.db.documents.rows == db.documents.rows[up.docId := doc]
              && (up.docId == db.documents.nextId || (up.docId in db.documents.rows
                                                      && db.documents.rows[up.docId].filepath == doc.filepath))
            else up.db == db
  {
    FoundByPath(db, doc.filepath);
    hide Inv, FindByPath, MarkStaleRows, DeleteVec, SeedJobs;
  }

  /** A row after its document was written: Stale if it was Embedded, and otherwise as it was. */
  predicate IsWrittenOver(before: EmbeddingRow, after: EmbeddingRow, docId: int) {
    after == before.(state := if before.documentId == docId && before.state == Embedded then Stale else before.state)
  }

  /** The rest of a committed write: no row of the document is Embedded and none is indexed, whatever its
      model; rows of its other models only become Stale, and no other document's rows change. */
  ghost predicate IsOutdated(before: Db, after: Db, docId: int, modelId: int) {
    && (forall id :: id in after.embeddings.rows && after.embeddings.rows[id].documentId == docId ==>
          IsRecoverable(after.embeddings.rows[id]) && (after.vec.Some? ==> id !in after.vec.value.entries))
    && (forall id :: id in before.embeddings.rows && !IsPair(before.embeddings.rows[id], docId, modelId) ==>
          id in after.embeddings.rows && IsWrittenOver(before.embeddings.rows[id], after.embeddings.rows[id], docId))
    && (forall id :: id in after.embeddings.rows && !IsPair(after.embeddings.rows[id], docId, modelId) ==>
          id in before.embeddings.rows)
  }

  lemma WrittenRows(db: Db, doc: Document)
    requires Inv(db) && UpsertDocument(db, doc).changed
    ensures var up := UpsertDocument(db, doc);
            && up.db.embeddings.rows.Keys == db.embeddings.rows.Keys
            && forall id :: id in db.embeddings.rows ==>
                 IsWrittenOver(db.embeddings.rows[id], up.db.embeddings.rows[id], up.docId)
  {
    hide RowsOk, JobsOk, ModelsOk, VecSound, SeedJobs;
    forall id | id in db.embeddings.rows
      ensures db.embeddings.rows[id].documentId in db.documents.rows
    {
      assert RowIsSound(db, db.embeddings.rows[id]);
    }
    hide RowsSound;
  }

  lemma ReplacedOthers(db: Db, docId: int, modelId: int, chunks: seq<ChunkRef>, now: int)
    requires Inv(db)
    ensures var after := ReplacePending(db, docId, modelId, chunks, now).embeddings;
            && PairIsPending(after, docId, modelId) && OthersKept(db.embeddings, after, docId, modelId)
  {
    InvParts(db);
    var kept := DeletePairRows(db.embeddings, docId, modelId);
    DeletePairRowsEffect(db.embeddings, docId, modelId);
    UpsertPendingRowsEffect(kept, docId, modelId, chunks, now);
    hide Inv, RowsOk, UpsertPendingRows, DeletePairRows;
    PairDeletedThenKept(db.embeddings, kept, UpsertPendingRows(kept, docId, modelId, chunks, now), docId, modelId);
  }

  lemma PairDeletedThenKept(x: Rows, y: Rows, z: Rows, docId: int, modelId: int)
    requires OthersKept(x, y, docId, modelId) && OthersKept(y, z, docId, modelId)
    ensures OthersKept(x, z, docId, modelId)
  {
  }

  lemma ChangedWriteOutdates(db: Db, doc: Document, modelId: int, chunks: seq<ChunkRef>, now: int)
    requires Inv(db) && UpsertDocument(db, doc).changed && !UpsertFails(db, doc, modelId, chunks)
    ensures IsOutdated(db, UpsertAndReplacePending(db, doc, modelId, chunks, now), UpsertDocument(db, doc).docId,
                       modelId)
  {
    var up := UpsertDocument(db, doc);
    var after := UpsertAndReplacePending(db, doc, modelId, chunks, now);
    UpsertDocumentKeeps(db, doc);
    UpsertTxKeeps(db, doc, modelId, chunks, now);
    WrittenRows(db, doc);
    ReplacedOthers(up.db, up.docId, modelId, chunks, now);
    SeedKeepsRows(ReplacePending(up.db, up.docId, modelId, chunks, now), now);
    IndexedRowsAreEmbedded(after);
    hide Inv, UpsertDocument, ReplacePending, Seed, OthersKept, PairIsPending, IsWrittenOver;
    Outdated(db, up.db.embeddings, after, up.docId, modelId);
  }

  lemma Outdated(before: Db, mid: Rows, after: Db, docId: int, modelId: int)
    requires mid.rows.Keys == before.embeddings.rows.Keys
    requires forall id :: id in before.embeddings.rows ==>
               IsWrittenOver(before.embeddings.rows[id], mid.rows[id], docId)
    requires PairIsPending(after.embeddings, docId, modelId) && OthersKept(mid, after.embeddings, docId, modelId)
    requires after.vec.Some? ==> forall id :: id in after.vec.value.entries ==>
               id in after.embeddings.rows && after.embeddings.rows[id].state == Embedded
    ensures IsOutdated(before, after, docId, modelId)
  {
  }

  lemma IndexedRowsAreEmbedded(db: Db)
    requires Inv(db)
    ensures db.vec.Some? ==> forall id :: id in db.vec.value.entries ==>
              id in db.embeddings.rows && db.embeddings.rows[id].state == Embedded
  {
  }
}
