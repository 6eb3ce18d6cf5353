/** What each transaction and statement does to the database, as functions on its value. */
module StoreSpec {
  import opened Prelude
  import opened Types
  import opened Tables
  import opened Ordering
  import opened JobQueue

  type Rows = Table<EmbeddingRow>

  // -------------------------------------------------------------------------
  // Statements on document_embeddings
  // -------------------------------------------------------------------------

  predicate IsPair(row: EmbeddingRow, docId: int, modelId: int) {
    row.documentId == docId && row.modelId == modelId
  }

  /** The unique index of the table. */
  predicate SameKey(x: EmbeddingRow, y: EmbeddingRow) {
    && IsPair(x, y.documentId, y.modelId)
    && x.chunk.chunkType == y.chunk.chunkType
    && x.chunk.start == y.chunk.start
  }

  predicate IsRecoverable(row: EmbeddingRow) { row.state != Embedded }

  function PendingRow(docId: int, modelId: int, chunk: ChunkRef, now: int): EmbeddingRow {
    EmbeddingRow(docId, modelId, chunk, Pending, None, now)
  }

  /** `INSERT ... ON CONFLICT(document_id, model_id, chunk_type, chunk_start) DO UPDATE`. */
  function UpsertPendingRow(rows: Rows, docId: int, modelId: int, chunk: ChunkRef, now: int): Rows {
    var row := PendingRow(docId, modelId, chunk, now);
    if exists id :: id in rows.rows && SameKey(rows.rows[id], row) then
      rows.(rows := map id | id in rows.rows :: if SameKey(rows.rows[id], row) then row else rows.rows[id])
    else Insert(rows, row)
  }

  function UpsertPendingRows(rows: Rows, docId: int, modelId: int, chunks: seq<ChunkRef>, now: int): Rows {
    if chunks == [] then rows
    else
      UpsertPendingRow(UpsertPendingRows(rows, docId, modelId, chunks[..|chunks| - 1], now),
                       docId, modelId, chunks[|chunks| - 1], now)
  }

  /** One fully materialized row ready to store. */
  datatype EmbeddedChunk = EmbeddedChunk(chunk: ChunkRef, embedding: Blob)

  function EmbeddedRow(docId: int, modelId: int, chunk: EmbeddedChunk, now: int): EmbeddingRow {
    EmbeddingRow(docId, modelId, chunk.chunk, Embedded, Some(chunk.embedding), now)
  }

  function InsertEmbeddedRows(rows: Rows, docId: int, modelId: int, chunks: seq<EmbeddedChunk>, now: int): Rows {
    if chunks == [] then rows
    else Insert(InsertEmbeddedRows(rows, docId, modelId, chunks[..|chunks| - 1], now),
                EmbeddedRow(docId, modelId, chunks[|chunks| - 1], now))
  }

  function DeletePairRows(rows: Rows, docId: int, modelId: int): Rows {
    rows.(rows := map id | id in rows.rows && !IsPair(rows.rows[id], docId, modelId) :: rows.rows[id])
  }

  function DeleteDocumentRows(rows: Rows, docId: int): Rows {
    rows.(rows := map id | id in rows.rows && rows.rows[id].documentId != docId :: rows.rows[id])
  }

  /** `SET state = 'stale' WHERE document_id IN (...) AND state = 'embedded'`. */
  function StaleRow(row: EmbeddingRow, docIds: set<int>): EmbeddingRow {
    if row.documentId in docIds && row.state == Embedded then row.(state := Stale) else row
  }

  function MarkStaleRows(rows: Rows, docIds: set<int>): Rows {
    rows.(rows := map id | id in rows.rows :: StaleRow(rows.rows[id], docIds))
  }

  // -------------------------------------------------------------------------
  // Statements on the vector table; each does nothing while the table is missing
  // -------------------------------------------------------------------------

  function DeleteVec(vec: Option<VecTable>, ids: set<int>): Option<VecTable> {
    if vec.None? then None else Some(vec.value.(entries := vec.value.entries - ids))
  }

  function DocumentRowIds(rows: Rows, docIds: set<int>): set<int> {
    set id | id in rows.rows && rows.rows[id].documentId in docIds
  }

  function PairRowIds(rows: Rows, docId: int, modelId: int): set<int> {
    set id | id in rows.rows && IsPair(rows.rows[id], docId, modelId)
  }

  function NonEmbeddedPairRowIds(rows: Rows, docId: int, modelId: int): set<int> {
    set id | id in rows.rows && IsPair(rows.rows[id], docId, modelId) && rows.rows[id].state != Embedded
  }

  /** The rows that a sync or backfill copies. */
  predicate IsVectorRow(row: EmbeddingRow) { row.state == Embedded && row.embedding.Some? }

  function PairVectors(rows: Rows, docId: int, modelId: int): map<int, Blob> {
    map id | id in rows.rows && IsPair(rows.rows[id], docId, modelId) && IsVectorRow(rows.rows[id]) ::
      rows.rows[id].embedding.value
  }

  function ModelVectors(rows: Rows, modelId: int): map<int, Blob> {
    map id | id in rows.rows && rows.rows[id].modelId == modelId && IsVectorRow(rows.rows[id]) ::
      rows.rows[id].embedding.value
  }

  /** The table rejects a vector of another dimension. */
  predicate VectorsFit(vec: VecTable, vectors: map<int, Blob>) {
    forall id :: id in vectors ==> |vectors[id]| == F32_BYTES * vec.dimensions
  }

  function InsertVectors(vec: VecTable, vectors: map<int, Blob>): VecTable {
    vec.(entries := vec.entries + vectors)
  }

  // -------------------------------------------------------------------------
  // Seeding
  // -------------------------------------------------------------------------

  /** `SELECT DISTINCT document_id, model_id ... WHERE state IN ('pending', 'stale')`. */
  function RecoverablePairs(rows: Rows): set<Key> {
    set id | id in rows.rows && IsRecoverable(rows.rows[id]) ::
      Key(rows.rows[id].documentId, rows.rows[id].modelId, 0)
  }

  function PairPayload(pair: Key): JobPayload { EmbedDocument(pair.first, pair.second) }

  function EnqueuePairs(jobs: Jobs, pairs: seq<Key>, now: int): Jobs {
    if pairs == [] then jobs
    else Enqueue(EnqueuePairs(jobs, pairs[..|pairs| - 1], now), PairPayload(pairs[|pairs| - 1]), now)
  }

  function SeedJobs(jobs: Jobs, rows: Rows, now: int): Jobs {
    EnqueuePairs(jobs, Sorted(RecoverablePairs(rows)), now)
  }

  function Seed(db: Db, now: int): Db { db.(jobs := SeedJobs(db.jobs, db.embeddings, now)) }

  // -------------------------------------------------------------------------
  // Transactions
  // -------------------------------------------------------------------------

  function MarkStaleInTx(db: Db, docIds: set<int>, now: int): Db {
    var ids := docIds * db.documents.rows.Keys;
    var rows := MarkStaleRows(db.embeddings, ids);
    Seed(db.(embeddings := rows, vec := DeleteVec(db.vec, DocumentRowIds(rows, docIds))), now)
  }

  function SetOf(ids: seq<int>): set<int> { set id | id in ids }

  function MarkStale(db: Db, docIds: seq<int>, now: int): Db {
    if docIds == [] then db else MarkStaleInTx(db, SetOf(docIds), now)
  }

  /** Rows of one path, newest first: `ORDER BY updated_at DESC, id DESC`. */
  function PathKeys(documents: Table<Document>, filepath: Path): set<Key> {
    set id | id in documents.rows && documents.rows[id].filepath == filepath ::
      Key(-documents.rows[id].updatedAt, -id, 0)
  }

  function FindByPath(documents: Table<Document>, filepath: Path): (id: Option<int>)
    ensures id.Some? ==> id.value in documents.rows && documents.rows[id.value].filepath == filepath
    ensures id.None? ==> forall j :: j in documents.rows ==> documents.rows[j].filepath != filepath
  {
    var keys := PathKeys(documents, filepath);
    if keys == {} then
      assert forall j :: j in documents.rows && documents.rows[j].filepath == filepath ==>
        Key(-documents.rows[j].updatedAt, -j, 0) in keys;
      None
    else Some(-Least(keys).second)
  }

  datatype Upserted = Upserted(db: Db, docId: int, changed: bool)

  function UpsertDocument(db: Db, doc: Document): Upserted {
    match FindByPath(db.documents, doc.filepath)
    case None => Upserted(db.(documents := Insert(db.documents, doc)), db.documents.nextId, true)
    case Some(id) =>
      if db.documents.rows[id].fileHash == doc.fileHash then Upserted(db, id, false)
      else
        var documents := db.documents.(rows := db.documents.rows[id := doc]);
        Upserted(MarkStaleInTx(db.(documents := documents), {id}, doc.updatedAt), id, true)
  }

  /** `delete_embeddings_for_model`, then `insert_pending_embeddings`. */
  function ReplacePending(db: Db, docId: int, modelId: int, chunks: seq<ChunkRef>, now: int): Db {
    var kept := DeleteVec(db.vec, PairRowIds(db.embeddings, docId, modelId));
    var rows := UpsertPendingRows(DeletePairRows(db.embeddings, docId, modelId), docId, modelId, chunks, now);
    db.(embeddings := rows, vec := DeleteVec(kept, NonEmbeddedPairRowIds(rows, docId, modelId)))
  }

  datatype TxError = ConstraintFailed | ModelMissing | WrongLength | WrongDimension

  /** Fails, and rolls back, only when the model of the new rows does not exist. */
  predicate UpsertFails(db: Db, doc: Document, modelId: int, chunks: seq<ChunkRef>) {
    UpsertDocument(db, doc).changed && chunks != [] && modelId !in db.models.rows
  }

  function UpsertAndReplacePending(db: Db, doc: Document, modelId: int, chunks: seq<ChunkRef>, now: int): Db {
    var up := UpsertDocument(db, doc);
    if !up.changed || UpsertFails(db, doc, modelId, chunks) then db
    else Seed(ReplacePending(up.db, up.docId, modelId, chunks, now), now)
  }

  function DeleteDocument(db: Db, docId: int): Db {
    db.(documents := db.documents.(rows := db.documents.rows - {docId}),
        embeddings := DeleteDocumentRows(db.embeddings, docId),
        vec := DeleteVec(db.vec, DocumentRowIds(db.embeddings, {docId})))
  }

  predicate DistinctChunks(chunks: seq<EmbeddedChunk>) {
    forall j, k :: 0 <= j < k < |chunks| ==>
      !(chunks[j].chunk.chunkType == chunks[k].chunk.chunkType && chunks[j].chunk.start == chunks[k].chunk.start)
  }

  function ReplacedRows(db: Db, docId: int, modelId: int, chunks: seq<EmbeddedChunk>, now: int): Rows {
    InsertEmbeddedRows(DeletePairRows(db.embeddings, docId, modelId), docId, modelId, chunks, now)
  }

  /** The first failing statement inside the replacing transaction. */
  function ReplaceStatementError(db: Db, docId: int, modelId: int, chunks: seq<EmbeddedChunk>, now: int)
    : Option<TxError>
  {
    if (chunks != [] && docId !in db.documents.rows) || !DistinctChunks(chunks) then Some(ConstraintFailed)
    else if db.vec.Some?
            && !VectorsFit(db.vec.value,
                           PairVectors(ReplacedRows(db, docId, modelId, chunks, now), docId, modelId)) then
      Some(WrongDimension)
    else None
  }

  /** Why `replace_embeddings_for_document_model` fails, if it does; nothing is changed then. */
  function ReplaceError(db: Db, docId: int, modelId: int, chunks: seq<EmbeddedChunk>, now: int): Option<TxError> {
    if modelId !in db.models.rows || db.models.rows[modelId].dimensions < 0 then Some(ModelMissing)
    else if exists k :: 0 <= k < |chunks|
                        && |chunks[k].embedding| != F32_BYTES * db.models.rows[modelId].dimensions then
      Some(WrongLength)
    else ReplaceStatementError(db, docId, modelId, chunks, now)
  }

  function Replaced(db: Db, docId: int, modelId: int, chunks: seq<EmbeddedChunk>, now: int): Db {
    var rows := ReplacedRows(db, docId, modelId, chunks, now);
    var kept := DeleteVec(db.vec, PairRowIds(db.embeddings, docId, modelId));
    db.(embeddings := rows,
        vec := if kept.None? then None else Some(InsertVectors(kept.value, PairVectors(rows, docId, modelId))))
  }

  function ReplaceEmbeddings(db: Db, docId: int, modelId: int, chunks: seq<EmbeddedChunk>, now: int): Db {
    if ReplaceError(db, docId, modelId, chunks, now).Some? then db else Replaced(db, docId, modelId, chunks, now)
  }

  // -------------------------------------------------------------------------
  // Transactions as data
  // -------------------------------------------------------------------------

  /** The server's transactions. */
  datatype Tx =
    | UpsertTx(doc: Document, modelId: int, chunks: seq<ChunkRef>, now: int)
    | MarkStaleTx(docIds: seq<int>, now: int)
    | DeleteTx(docId: int)
    | ReplaceTx(docId: int, modelId: int, embedded: seq<EmbeddedChunk>, now: int)
    | QueueTx(op: QueueOp)

  function ApplyTx(db: Db, tx: Tx): Db {
    match tx
    case UpsertTx(doc, modelId, chunks, now) => UpsertAndReplacePending(db, doc, modelId, chunks, now)
    case MarkStaleTx(docIds, now) => MarkStale(db, docIds, now)
    case DeleteTx(docId) => DeleteDocument(db, docId)
    case ReplaceTx(docId, modelId, embedded, now) => ReplaceEmbeddings(db, docId, modelId, embedded, now)
    case QueueTx(op) => db.(jobs := ApplyOp(db.jobs, op))
  }

  function ApplyTxs(db: Db, txs: seq<Tx>): Db
    decreases |txs|
  {
    if txs == [] then db else ApplyTxs(ApplyTx(db, txs[0]), txs[1..])
  }

  // -------------------------------------------------------------------------
  // Startup statements (each one commits on its own)
  // -------------------------------------------------------------------------

  function IdentityKeys(models: Table<EmbeddingIdentity>, identity: EmbeddingIdentity): set<Key> {
    set id | id in models.rows && models.rows[id] == identity :: Key(id, 0, 0)
  }

  function FindModel(models: Table<EmbeddingIdentity>, identity: EmbeddingIdentity): (id: Option<int>)
    ensures id.Some? ==> id.value in models.rows && models.rows[id.value] == identity
    ensures id.None? ==> forall j :: j in models.rows ==> models.rows[j] != identity
  {
    var keys := IdentityKeys(models, identity);
    if keys == {} then
      assert forall j :: j in models.rows && models.rows[j] == identity ==> Key(j, 0, 0) in keys;
      None
    else Some(Least(keys).first)
  }

  /** `insert_pending_embeddings` for one document, outside a transaction. */
  function QueuePending(db: Db, docId: int, modelId: int, chunks: seq<ChunkRef>, now: int): Db {
    var rows := UpsertPendingRows(db.embeddings, docId, modelId, chunks, now);
    db.(embeddings := rows, vec := DeleteVec(db.vec, NonEmbeddedPairRowIds(rows, docId, modelId)))
  }

  // -------------------------------------------------------------------------
  // The vector index
  // -------------------------------------------------------------------------

  /** `active_index_requires_rebuild`. */
  predicate RequiresRebuild(db: Db, modelId: int, dimensions: int) {
    db.vec.None? || db.search != Some(SearchState(modelId, dimensions))
  }

  function DropVecTable(db: Db): Db { db.(vec := None) }

  function CreateVecTable(db: Db, dimensions: int): Db { db.(vec := Some(VecTable(dimensions, map[]))) }

  function StoreSearchState(db: Db, modelId: int, dimensions: int): Db {
    db.(search := Some(SearchState(modelId, dimensions)))
  }

  /** No stored vector of the model has another length. */
  predicate BackfillChecks(db: Db, modelId: int, dimensions: int) {
    forall id :: id in db.embeddings.rows && db.embeddings.rows[id].modelId == modelId
                 && IsVectorRow(db.embeddings.rows[id]) ==>
      |db.embeddings.rows[id].embedding.value| == F32_BYTES * dimensions
  }

  function BackfillVec(db: Db, modelId: int): Db {
    if db.vec.None? then db
    else db.(vec := Some(InsertVectors(db.vec.value, ModelVectors(db.embeddings, modelId))))
  }

  datatype IndexError = DimensionsNotPositive | UnknownModel | InvalidRows

  /** `ensure_active_search_model`: the error, if any, and the database it leaves behind. */
  function EnsureIndexError(db: Db, modelId: int, dimensions: int): Option<IndexError> {
    if !RequiresRebuild(db, modelId, dimensions) then None
    else if dimensions <= 0 then Some(DimensionsNotPositive)
    else if modelId !in db.models.rows then Some(UnknownModel)
    else if !BackfillChecks(db, modelId, dimensions) then Some(InvalidRows)
    else None
  }

  function EnsureIndex(db: Db, modelId: int, dimensions: int): Db {
    if !RequiresRebuild(db, modelId, dimensions) || dimensions <= 0 then db
    else
      var created := CreateVecTable(DropVecTable(db), dimensions);
      if modelId !in db.models.rows then created
      else
        var stored := StoreSearchState(created, modelId, dimensions);
        if !BackfillChecks(db, modelId, dimensions) then stored else BackfillVec(stored, modelId)
  }
}
