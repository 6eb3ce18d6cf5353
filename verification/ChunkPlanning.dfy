/** Ingest plans chunks from a bounded read of the file; the embed job reads the file again with
    another budget and slices it at the stored offsets. */
module ChunkPlanning {
  import opened Prelude
  import opened Utf8
  import opened Types
  import opened Breakpoints
  import opened Chunking
  import opened ChunkCoverage
  import opened ContentRead

  // -------------------------------------------------------------------------
  // Planning
  // -------------------------------------------------------------------------

  function SpanRef(span: ChunkSpan): ChunkRef
    requires span.start <= ISIZE_MAX && span.end <= ISIZE_MAX
  {
    ChunkRef(Content, span.start, span.end)
  }

  function ContentSpans(content: Str, model: EmbeddingIdentity): (spans: seq<ChunkSpan>)
    ensures forall k :: 0 <= k < |spans| ==> spans[k].start < spans[k].end <= |content|
    ensures forall k :: 0 <= k < |spans| ==>
              IsCharBoundary(content, spans[k].start) && IsCharBoundary(content, spans[k].end)
  {
    var chunkSize := AsUsize(model.chunkSize);
    var overlap := AsUsize(model.chunkOverlap);
    var spans := StructurePlan(content, chunkSize, overlap, BreakWindow(chunkSize));
    assert forall k :: 0 <= k < |spans| ==> IsChunk(content, Max(chunkSize, |content|), spans[k]) by {
      SpansAreChunks(content, chunkSize, overlap);
    }
    spans
  }

  lemma SpansAreChunks(content: Str, chunkSize: usize, overlap: usize)
    ensures var spans := StructurePlan(content, chunkSize, overlap, BreakWindow(chunkSize));
            forall k :: 0 <= k < |spans| ==> IsChunk(content, Max(chunkSize, |content|), spans[k])
  {
    hide WellFormed, Scan, Spans;
    if content != [] && chunkSize > 0 {
      StructureChunksCover(content, chunkSize, overlap, BreakWindow(chunkSize));
    }
  }

  /** One filename chunk, then the content chunks in order. */
  function PlanPendingEmbeddings(content: Option<Str>, model: EmbeddingIdentity): seq<ChunkRef> {
    if content.None? || content.value == [] then [ChunkRef(Filename, 0, 0)]
    else
      var spans := ContentSpans(content.value, model);
      [ChunkRef(Filename, 0, 0)] + seq(|spans|, k requires 0 <= k < |spans| => SpanRef(spans[k]))
  }

  lemma ReadContentIsText(file: FileBytes, budget: usize)
    ensures var content := ReadPlan(file, budget).content;
            content.Some? ==> WellFormed(content.value) && |content.value| <= ISIZE_MAX
  {
    hide WellFormed, ReadPlan, IsAcceptable;
    ReadRefinesLongestPrefix(file, budget);
  }

  /** What the planner sees of a file. */
  function PlannerContent(file: FileBytes): Option<Str> {
    ReadContentIsText(file, CONTENT_BYTE_BUDGET);
    match ReadPlan(file, CONTENT_BYTE_BUDGET).content
    case None => None
    case Some(content) => Some(content)
  }

  function PlannedChunks(file: FileBytes, model: EmbeddingIdentity): seq<ChunkRef> {
    PlanPendingEmbeddings(PlannerContent(file), model)
  }

  /** No two planned chunks share type and start, so each one gets its own row. */
  lemma PlannedKeysAreDistinct(content: Option<Str>, model: EmbeddingIdentity, j: nat, k: nat)
    requires j < k < |PlanPendingEmbeddings(content, model)|
    ensures var plan := PlanPendingEmbeddings(content, model);
            !(plan[j].chunkType == plan[k].chunkType && plan[j].start == plan[k].start)
  {
    hide WellFormed, PlanPendingEmbeddings, ContentSpans, StructurePlan;
    PlannedAt(content, model, k);
    if j > 0 {
      PlannedAt(content, model, j);
      SpanStartsIncrease(content.value, model, j - 1, k - 1);
    }
  }

  /** The first planned chunk is the filename's, the others are the content spans in order. */
  lemma PlannedAt(content: Option<Str>, model: EmbeddingIdentity, k: nat)
    requires k < |PlanPendingEmbeddings(content, model)|
    ensures PlanPendingEmbeddings(content, model)[0].chunkType.Filename?
    ensures k > 0 ==> content.Some? && k <= |ContentSpans(content.value, model)|
                      && PlanPendingEmbeddings(content, model)[k] == SpanRef(ContentSpans(content.value, model)[k - 1])
  {
    hide WellFormed, ContentSpans;
  }

  lemma SpanStartsIncrease(text: Str, model: EmbeddingIdentity, j: nat, k: nat)
    requires j < k < |ContentSpans(text, model)|
    ensures ContentSpans(text, model)[j].start < ContentSpans(text, model)[k].start
  {
    hide WellFormed, StructurePlan, Covers;
    var chunkSize, overlap := AsUsize(model.chunkSize), AsUsize(model.chunkOverlap);
    StructureChunksCoverOrEmpty(text, chunkSize, overlap);
    StartsIncrease(text, if overlap < chunkSize then chunkSize else |text|, overlap, 0,
                   ContentSpans(text, model), j, k);
  }

  lemma StructureChunksCoverOrEmpty(content: Str, chunkSize: usize, overlap: usize)
    requires StructurePlan(content, chunkSize, overlap, BreakWindow(chunkSize)) != []
    ensures Covers(content, if overlap < chunkSize then chunkSize else |content|, overlap, 0,
                   StructurePlan(content, chunkSize, overlap, BreakWindow(chunkSize)))
  {
    hide WellFormed, Scan, Spans, Covers;
    StructureChunksCover(content, chunkSize, overlap, BreakWindow(chunkSize));
  }

  // -------------------------------------------------------------------------
  // Preparing the embedding inputs
  // -------------------------------------------------------------------------

  datatype PreparedChunk = PreparedChunk(chunk: ChunkRef, input: seq<byte>)

  datatype PrepareError = NegativeOffset | NotText | InvalidRange

  function MaxContentEnd(rows: seq<ChunkRef>): (end: Option<i64>)
    ensures end.None? <==> forall k :: 0 <= k < |rows| ==> rows[k].chunkType.Filename?
    ensures end.Some? ==> exists k :: 0 <= k < |rows| && rows[k].chunkType.Content? && rows[k].end == end.value
    ensures forall k :: 0 <= k < |rows| && rows[k].chunkType.Content? ==> end.Some? && rows[k].end <= end.value
  {
    if rows == [] then None
    else
      var last := rows[|rows| - 1];
      var rest := MaxContentEnd(rows[..|rows| - 1]);
      assert rows == rows[..|rows| - 1] + [last];
      if last.chunkType.Filename? then rest
      else if rest.Some? && rest.value > last.end then rest
      else Some(last.end)
  }

  /** The content that the embed job reads back. */
  function RereadContent(file: FileBytes, rows: seq<ChunkRef>): Result<Option<seq<byte>>, PrepareError> {
    match MaxContentEnd(rows)
    case None => Success(None)
    case Some(end) => if end < 0 then Failure(NegativeOffset) else Success(ReadPlan(file, end).content)
  }

  function PrepareRow(filepath: seq<byte>, content: Option<seq<byte>>, row: ChunkRef)
    : Result<PreparedChunk, PrepareError>
  {
    if row.chunkType.Filename? then Success(PreparedChunk(row, filepath))
    else if content.None? then Failure(NotText)
    else if row.start < 0 || row.end < 0 then Failure(NegativeOffset)
    else if row.start <= row.end <= |content.value|
            && IsCharBoundary(content.value, row.start)
            && IsCharBoundary(content.value, row.end) then
      Success(PreparedChunk(row, content.value[row.start..row.end]))
    else Failure(InvalidRange)
  }

  /** Every row prepared, in order, or the error of the first row that cannot be. */
  function PrepareRows(filepath: seq<byte>, content: Option<seq<byte>>, rows: seq<ChunkRef>)
    : (r: Result<seq<PreparedChunk>, PrepareError>)
    ensures r.Success? ==> |r.value| == |rows|
    ensures r.Success? ==> forall k :: 0 <= k < |rows| ==> PrepareRow(filepath, content, rows[k]) == Success(r.value[k])
    ensures r.Failure? ==> exists k :: 0 <= k < |rows| && PrepareRow(filepath, content, rows[k]) == Failure(r.error)
  {
    if rows == [] then Success([])
    else
      var init, last := rows[..|rows| - 1], rows[|rows| - 1];
      match PrepareRows(filepath, content, init)
      case Failure(error) => Failure(error)
      case Success(chunks) =>
        match PrepareRow(filepath, content, last)
        case Failure(error) => Failure(error)
        case Success(chunk) => Success(chunks + [chunk])
  }

  function PreparedChunks(filepath: seq<byte>, file: FileBytes, rows: seq<ChunkRef>)
    : Result<seq<PreparedChunk>, PrepareError>
  {
    match RereadContent(file, rows)
    case Failure(error) => Failure(error)
    case Success(content) => PrepareRows(filepath, content, rows)
  }

  lemma {:induction false} FirstFailureWins(filepath: seq<byte>, content: Option<seq<byte>>,
                                            rows: seq<ChunkRef>, n: nat)
    requires n <= |rows| && PrepareRows(filepath, content, rows[..n]).Failure?
    ensures PrepareRows(filepath, content, rows) == PrepareRows(filepath, content, rows[..n])
    decreases |rows| - n
  {
    hide PrepareRow;
    if n == |rows| {
      assert rows[..n] == rows;
    } else {
      assert rows[..n + 1][..n] == rows[..n];
      FirstFailureWins(filepath, content, rows, n + 1);
    }
  }

  lemma NothingToPrepare(filepath: seq<byte>, content: Option<seq<byte>>)
    ensures PrepareRows(filepath, content, []) == Success([])
  {
  }

  lemma PrepareStep(filepath: seq<byte>, content: Option<seq<byte>>, rows: seq<ChunkRef>, k: nat,
                    chunks: seq<PreparedChunk>)
    requires k < |rows| && PrepareRows(filepath, content, rows[..k]) == Success(chunks)
    ensures match PrepareRow(filepath, content, rows[k])
            case Success(chunk) => PrepareRows(filepath, content, rows[..k + 1]) == Success(chunks + [chunk])
            case Failure(error) => PrepareRows(filepath, content, rows) == Failure(error)
  {
    hide PrepareRow;
    assert rows[..k + 1][..k] == rows[..k];
    if PrepareRow(filepath, content, rows[k]).Failure? {
      FirstFailureWins(filepath, content, rows, k + 1);
    }
  }

  method PrepareEmbeddedChunks(filepath: seq<byte>, file: FileBytes, rows: seq<ChunkRef>)
    returns (r: Result<seq<PreparedChunk>, PrepareError>)
    ensures r == PreparedChunks(filepath, file, rows)
  {
    hide ReadPlan, IsCharBoundary, PrepareRows;
    var content: Option<seq<byte>> := None;
    match MaxContentEnd(rows) {
      case None =>
      case Some(end) =>
        if end < 0 {
          return Failure(NegativeOffset);
        }
        var prefix := ReadContentPrefixWithBudget(file, end);
        content := prefix.content;
    }
    assert RereadContent(file, rows) == Success(content);

    var chunks: seq<PreparedChunk> := [];
    NothingToPrepare(filepath, content);
    for k := 0 to |rows|
      invariant PrepareRows(filepath, content, rows[..k]) == Success(chunks)
    {
      var row := rows[k];
      PrepareStep(filepath, content, rows, k, chunks);
      var input: seq<byte>;
      match row.chunkType {
        case Filename =>
          input := filepath;
        case Content =>
          if content.None? {
            return Failure(NotText);
          }
          var start, end := row.start, row.end;
          if start < 0 || end < 0 {
            return Failure(NegativeOffset);
          }
          if !(start <= end <= |content.value|
               && IsCharBoundary(content.value, start) && IsCharBoundary(content.value, end)) {
            return Failure(InvalidRange);
          }
          input := content.value[start..end];
      }
      chunks := chunks + [PreparedChunk(row, input)];
    }
    assert rows[..|rows|] == rows;
    return Success(chunks);
  }

  // -------------------------------------------------------------------------
  // Round trip
  // -------------------------------------------------------------------------

  /** Reading again with any chunk end as the budget gives exactly the planner's content up to it. */
  lemma RereadGivesPrefix(file: FileBytes, budget: usize, end: usize)
    requires ReadPlan(file, budget).content.Some?
    requires var content := ReadPlan(file, budget).content.value;
             0 < end <= |content| && IsCharBoundary(content, end)
    ensures ReadPlan(file, end).content == Some(ReadPlan(file, budget).content.value[..end])
  {
    hide WellFormed, ReadPlan, IsCharBoundary, IsBeginning;
    ReadRefinesLongestPrefix(file, budget);
    ReadRefinesLongestPrefix(file, end);
    var content := ReadPlan(file, budget).content.value;
    BoundarySplits(content, end);
    assert content[..end] == file[..end];
    LongestIsUnique(file, end, end, AlignedLength(file, end));

    var before, now := BytesRead(file, budget), BytesRead(file, end);
    assert now == before[..|now|];
    if WellFormed(before) { WellFormedIsBeginning(before); }
    if |now| < |file| {
      BeginningOfBeginning(before, |now|);
    } else {
      assert now == before;
    }
  }

  /** Any rows whose content chunks were planned from the file are prepared without error, and each
      content chunk is exactly the text that the planner saw at those offsets. */
  lemma EmbedSeesPlannedText(filepath: seq<byte>, file: FileBytes, model: EmbeddingIdentity, rows: seq<ChunkRef>)
    requires forall k :: 0 <= k < |rows| && rows[k].chunkType.Content? ==> rows[k] in PlannedChunks(file, model)
    ensures var r := PreparedChunks(filepath, file, rows);
            && r.Success? && |r.value| == |rows|
            && forall k :: 0 <= k < |rows| ==> SeesPlannedText(filepath, file, rows[k], r.value[k])
  {
    hide WellFormed, ReadPlan, PlannedChunks;
    forall k | 0 <= k < |rows| && rows[k].chunkType.Content?
      ensures IsPlannedRange(file, rows[k])
    {
      PlannedRange(file, model, rows[k]);
    }
    match MaxContentEnd(rows)
    case None =>
    case Some(end) =>
      var widest :| 0 <= widest < |rows| && rows[widest].chunkType.Content? && rows[widest].end == end;
      assert IsPlannedRange(file, rows[widest]);
      var planned := PlannerContent(file).value;
      RereadGivesPrefix(file, CONTENT_BYTE_BUDGET, end);
      var content := Some(planned[..end]);
      assert RereadContent(file, rows) == Success(content);
      forall k | 0 <= k < |rows| && rows[k].chunkType.Content?
        ensures PrepareRow(filepath, content, rows[k])
             == Success(PreparedChunk(rows[k], planned[rows[k].start..rows[k].end]))
      {
        assert IsPlannedRange(file, rows[k]);
        BoundaryOfPrefix(planned, end, rows[k].start);
        BoundaryOfPrefix(planned, end, rows[k].end);
        assert planned[..end][rows[k].start..rows[k].end] == planned[rows[k].start..rows[k].end];
      }
  }

  predicate IsPlannedRange(file: FileBytes, row: ChunkRef) {
    var content := PlannerContent(file);
    && content.Some?
    && 0 <= row.start < row.end <= |content.value|
    && IsCharBoundary(content.value, row.start)
    && IsCharBoundary(content.value, row.end)
  }

  predicate SeesPlannedText(filepath: seq<byte>, file: FileBytes, row: ChunkRef, prepared: PreparedChunk) {
    && prepared.chunk == row
    && match row.chunkType
       case Filename => prepared.input == filepath
       case Content =>
         IsPlannedRange(file, row) && prepared.input == PlannerContent(file).value[row.start..row.end]
  }

  lemma PlannedRange(file: FileBytes, model: EmbeddingIdentity, row: ChunkRef)
    requires row.chunkType.Content? && row in PlannedChunks(file, model)
    ensures IsPlannedRange(file, row)
  {
    hide WellFormed, ReadPlan, ContentSpans, PlannerContent, IsCharBoundary;
    var plan := PlannedChunks(file, model);
    var k :| 0 <= k < |plan| && plan[k] == row;
    var spans := ContentSpans(PlannerContent(file).value, model);
    assert row == SpanRef(spans[k - 1]);
  }
}
