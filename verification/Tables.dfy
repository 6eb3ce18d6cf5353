/** The database: tables whose ids come from AUTOINCREMENT counters, the vector index, and the
    singleton search state. */
module Tables {
  import opened Prelude
  import opened Types
  import opened Utf8

  // -------------------------------------------------------------------------
  // Rows
  // -------------------------------------------------------------------------

  /** UTF-8 bytes of a canonical path. */
  type Path = seq<byte>

  datatype DocumentDetails = DocumentDetails(
    fileType: string, fileModifiedAt: int, fileSize: int, metadataJson: string)

  datatype Document = Document(filepath: Path, fileHash: FileHash, details: DocumentDetails, updatedAt: int)

  datatype EmbeddingRow = EmbeddingRow(
    documentId: int,
    modelId: int,
    chunk: ChunkRef,
    state: EmbedState,
    embedding: Option<Blob>,
    createdAt: int)

  /** Job type and payload together; the queue is unique on the pair. */
  datatype JobPayload =
    | EmbedDocument(documentId: int, modelId: int)
    | IngestFolder(rootPath: string, filePattern: string)
    | IngestFolderGit(rootPath: string, filePattern: string)

  datatype JobRow = JobRow(payload: JobPayload, claimedAt: Option<int>, createdAt: int)

  // -------------------------------------------------------------------------
  // Tables
  // -------------------------------------------------------------------------

  /** `nextId` never goes back, so ids are never reused. */
  datatype Table<V> = Table(rows: map<int, V>, nextId: int)

  function EmptyTable<V>(): Table<V> { Table(map[], 1) }

  function Insert<V>(table: Table<V>, row: V): Table<V> {
    Table(table.rows[table.nextId := row], table.nextId + 1)
  }

  ghost predicate IdsBelow<V>(table: Table<V>) {
    && table.nextId > 0
    && forall id :: id in table.rows ==> 0 < id < table.nextId
  }

  /** The vec0 virtual table: it outlives no row by itself, since foreign keys do not reach it. */
  datatype VecTable = VecTable(dimensions: int, entries: map<int, Blob>)

  datatype SearchState = SearchState(activeModelId: int, dimensions: int)

  datatype Db = Db(
    documents: Table<Document>,
    models: Table<EmbeddingIdentity>,
    embeddings: Table<EmbeddingRow>,
    jobs: Table<JobRow>,
    vec: Option<VecTable>,
    search: Option<SearchState>)

  const EMPTY_DB: Db := Db(EmptyTable(), EmptyTable(), EmptyTable(), EmptyTable(), None, None)

  const F32_BYTES: int := 4
}
