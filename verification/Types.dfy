/** Values stored in the database tables. */
module Types {
  import opened Utf8

  type i64 = n: int | -0x8000_0000_0000_0000 <= n <= 0x7FFF_FFFF_FFFF_FFFF

  datatype ChunkType = Content | Filename

  datatype EmbedState = Pending | Embedded | Stale

  /** A planned chunk: what is embedded, and the byte range of a content chunk. */
  datatype ChunkRef = ChunkRef(chunkType: ChunkType, start: i64, end: i64)

  datatype EmbeddingIdentity = EmbeddingIdentity(
    name: string, dimensions: i64, chunkSize: i64, chunkOverlap: i64)

  /** A serialized vector. */
  type Blob = seq<byte>

  /** Content hash of a file. The hash is injective here, so the bytes themselves stand for it. */
  datatype FileHash = FileHash(bytes: seq<byte>)
}
