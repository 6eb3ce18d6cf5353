/** One claimed `embed_document` job, from the reads of the handler to the dispatcher's completion,
    as the list of transactions that it runs. */
module EmbedJob {
  import opened Prelude
  import opened Utf8
  import opened Types
  import opened Tables
  import opened Ordering
  import opened JobQueue
  import opened StoreSpec
  import opened ContentRead
  import opened ChunkPlanning

  // -------------------------------------------------------------------------
  // The world outside the database
  // -------------------------------------------------------------------------

  /** What the file system shows during the job. `contentReads` says whether reads after the hash
      succeed; the rest of the metadata is only stored. */
  datatype FileView =
    | NotFound
    | MetadataFails
    | HashFails
    | Present(bytes: FileBytes, contentReads: bool, details: DocumentDetails)

  /** The four little-endian bytes of an `f32`. */
  datatype F32 = F32(b0: byte, b1: byte, b2: byte, b3: byte)

  type Vector = seq<F32>

  datatype ProviderResult =
    | Vectors(vectors: seq<Vector>)
    | Transient(retryAfterSecs: nat)
    | Permanent

  function SerializeEmbedding(vector: Vector): (blob: Blob)
    ensures |blob| == F32_BYTES * |vector|
  {
    if vector == [] then []
    else
      var last := vector[|vector| - 1];
      SerializeEmbedding(vector[..|vector| - 1]) + [last.b0, last.b1, last.b2, last.b3]
  }

  /** Component `k` is at bytes `4k` to `4k + 4`, lowest byte first. */
  lemma {:induction false} SerializedBytes(vector: Vector, k: nat)
    requires k < |vector|
    ensures SerializeEmbedding(vector)[F32_BYTES * k..F32_BYTES * k + F32_BYTES]
         == [vector[k].b0, vector[k].b1, vector[k].b2, vector[k].b3]
  {
    var n := |vector| - 1;
    if k < n {
      SerializedBytes(vector[..n], k);
      assert SerializeEmbedding(vector)[..F32_BYTES * n] == SerializeEmbedding(vector[..n]);
    }
  }

  // -------------------------------------------------------------------------
  // Reads
  // -------------------------------------------------------------------------

  /** Text order of the stored chunk types. */
  function TypeRank(chunkType: ChunkType): int { if chunkType.Content? then 0 else 1 }

  function RowKey(row: EmbeddingRow, id: int): Key { Key(TypeRank(row.chunk.chunkType), row.chunk.start, id) }

  function RecoverableKeys(rows: Rows, docId: int, modelId: int): set<Key> {
    set id | id in rows.rows && IsPair(rows.rows[id], docId, modelId) && IsRecoverable(rows.rows[id]) ::
      RowKey(rows.rows[id], id)
  }

  /** `list_recoverable_embeddings_for_model`: ordered by chunk type, start and id. */
  function ListRecoverable(rows: Rows, docId: int, modelId: int): (ids: seq<int>)
    ensures forall k :: 0 <= k < |ids| ==> ids[k] in rows.rows
    ensures forall k :: 0 <= k < |ids| ==>
              IsPair(rows.rows[ids[k]], docId, modelId) && IsRecoverable(rows.rows[ids[k]])
  {
    var keys := Sorted(RecoverableKeys(rows, docId, modelId));
    SortedIsOrdered(RecoverableKeys(rows, docId, modelId));
    assert forall k :: 0 <= k < |keys| ==> keys[k] in RecoverableKeys(rows, docId, modelId);
    seq(|keys|, k requires 0 <= k < |keys| => keys[k].third)
  }

  /** The listing has every recoverable row of the pair, each once. */
  lemma ListIsComplete(rows: Rows, docId: int, modelId: int)
    ensures var ids := ListRecoverable(rows, docId, modelId);
            && (forall id :: id in rows.rows && IsPair(rows.rows[id], docId, modelId) && IsRecoverable(rows.rows[id])
                  ==> id in ids)
            && (forall j, k :: 0 <= j < k < |ids| ==> ids[j] != ids[k])
  {
    var pending := RecoverableKeys(rows, docId, modelId);
    SortedIsOrdered(pending);
    var keys := Sorted(pending);
    var ids := ListRecoverable(rows, docId, modelId);
    hide Sorted;
    forall id | id in rows.rows && IsPair(rows.rows[id], docId, modelId) && IsRecoverable(rows.rows[id])
      ensures id in ids
    {
      var key := RowKey(rows.rows[id], id);
      assert key in pending && key in keys;
      var k :| 0 <= k < |keys| && keys[k] == key;
      assert ids[k] == id;
    }
    forall j, k | 0 <= j < k < |ids|
      ensures ids[j] != ids[k]
    {
      assert Before(keys[j], keys[k]);
      assert keys[j] in pending && keys[k] in pending;
    }
  }

  /** `ORDER BY chunk_type, chunk_start, id`. */
  lemma ListIsOrdered(rows: Rows, docId: int, modelId: int, j: nat, k: nat)
    requires j < k < |ListRecoverable(rows, docId, modelId)|
    ensures var ids := ListRecoverable(rows, docId, modelId);
            var x, y := rows.rows[ids[j]].chunk, rows.rows[ids[k]].chunk;
            || (x.chunkType.Content? && y.chunkType.Filename?)
            || (x.chunkType == y.chunkType && (x.start < y.start || (x.start == y.start && ids[j] < ids[k])))
  {
    var pending := RecoverableKeys(rows, docId, modelId);
    SortedIsOrdered(pending);
    var keys := Sorted(pending);
    hide Sorted;
    assert keys[j] in pending && keys[k] in pending;
    assert Before(keys[j], keys[k]);
  }

  function ChunksAt(rows: Rows, ids: seq<int>): seq<ChunkRef>
    requires forall k :: 0 <= k < |ids| ==> ids[k] in rows.rows
  {
    seq(|ids|, k requires 0 <= k < |ids| => rows.rows[ids[k]].chunk)
  }

  predicate HasContent(chunks: seq<ChunkRef>) { exists k :: 0 <= k < |chunks| && chunks[k].chunkType.Content? }

  // -------------------------------------------------------------------------
  // The job
  // -------------------------------------------------------------------------

  function CompleteTx(jobId: int): Tx { QueueTx(CompleteOp(jobId)) }

  function Embedding(prepared: seq<PreparedChunk>, vectors: seq<Vector>): seq<EmbeddedChunk>
    requires |prepared| == |vectors|
  {
    seq(|prepared|, k requires 0 <= k < |prepared| =>
      EmbeddedChunk(prepared[k].chunk, SerializeEmbedding(vectors[k])))
  }

  function StoringTxs(db: Db, jobId: int, docId: int, modelId: int, prepared: seq<PreparedChunk>, vectors: seq<Vector>,
                      now: int): seq<Tx>
  {
    if |vectors| != |prepared| then []
    else
      var embedded := Embedding(prepared, vectors);
      if ReplaceError(db, docId, modelId, embedded, now).Some? then []
      else [ReplaceTx(docId, modelId, embedded, now), CompleteTx(jobId)]
  }

  /** The file is as it was when the rows were planned. */
  function EmbedTxs(db: Db, jobId: int, docId: int, modelId: int, file: FileBytes, contentReads: bool,
                    provider: ProviderResult, now: int): seq<Tx>
    requires docId in db.documents.rows
  {
    var chunks := ChunksAt(db.embeddings, ListRecoverable(db.embeddings, docId, modelId));
    if chunks == [] then [CompleteTx(jobId)]
    else if HasContent(chunks) && !contentReads then []
    else match PreparedChunks(db.documents.rows[docId].filepath, file, chunks)
      case Failure(_) => []
      case Success(prepared) =>
        match provider
        case Transient(retryAfterSecs) => [QueueTx(DeferOp(jobId, now, retryAfterSecs))]
        case Permanent => []
        case Vectors(vectors) => StoringTxs(db, jobId, docId, modelId, prepared, vectors, now)
  }

  /** The document row that a replan writes: the path and type stay, the rest is read anew. */
  function ReplannedDocument(doc: Document, file: FileBytes, details: DocumentDetails, now: int): Document {
    doc.(fileHash := FileHash(file), details := details.(fileType := doc.details.fileType), updatedAt := now)
  }

  /** The file changed: the job row goes first, then the document is planned again, and the
      dispatcher completes the same job id once more. */
  function ReplanTxs(doc: Document, model: EmbeddingIdentity, modelId: int, jobId: int, file: FileBytes,
                     contentReads: bool, details: DocumentDetails, now: int): seq<Tx>
  {
    if !contentReads then [CompleteTx(jobId)]
    else [CompleteTx(jobId),
          UpsertTx(ReplannedDocument(doc, file, details, now), modelId, PlannedChunks(file, model), now),
          CompleteTx(jobId)]
  }

  /** All exits of the handler followed by the dispatcher. An empty list leaves the claim in place. */
  function JobTxs(db: Db, jobId: int, docId: int, modelId: int, view: FileView, provider: ProviderResult, now: int)
    : seq<Tx>
  {
    if docId !in db.documents.rows then [CompleteTx(jobId), CompleteTx(jobId)]
    else if modelId !in db.models.rows then []
    else match view
      case NotFound => [DeleteTx(docId), CompleteTx(jobId)]
      case MetadataFails => []
      case HashFails => []
      case Present(file, contentReads, details) =>
        var doc := db.documents.rows[docId];
        if FileHash(file) != doc.fileHash then
          ReplanTxs(doc, db.models.rows[modelId], modelId, jobId, file, contentReads, details, now)
        else EmbedTxs(db, jobId, docId, modelId, file, contentReads, provider, now)
  }
}
