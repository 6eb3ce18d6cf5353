/** What the planned chunks of a file amount to: the filename, and content chunks that cover the text and
    end where they should. */
module PlannedCoverage {
  import opened Prelude
  import opened Utf8
  import opened Scalars
  import opened Types
  import opened Breakpoints
  import opened Chunking
  import opened ChunkCoverage
  import opened BreakChoice
  import opened ContentRead
  import opened ChunkPlanning

  /** The configured numbers, as the chunker receives them. */
  function ChunkSize(model: EmbeddingIdentity): usize { AsUsize(model.chunkSize) }

  function Overlap(model: EmbeddingIdentity): usize { AsUsize(model.chunkOverlap) }

  /** The planned chunks after the first as spans. */
  function ContentChunks(plan: seq<ChunkRef>): seq<ChunkSpan>
    requires forall k :: 0 < k < |plan| ==> plan[k].start >= 0 && plan[k].end >= 0
  {
    seq(Max(|plan| - 1, 0), k requires 0 <= k < |plan| - 1 => ChunkSpan(plan[k + 1].start, plan[k + 1].end))
  }

  /** One filename chunk first, then content chunks with offsets. */
  ghost predicate IsLaidOut(plan: seq<ChunkRef>) {
    && plan != [] && plan[0] == ChunkRef(Filename, 0, 0)
    && forall k :: 0 < k < |plan| ==> plan[k].chunkType.Content? && 0 <= plan[k].start && 0 <= plan[k].end
  }

  lemma PlanIsStructurePlan(file: FileBytes, model: EmbeddingIdentity)
    ensures IsLaidOut(PlannedChunks(file, model))
    ensures ContentChunks(PlannedChunks(file, model))
         == match PlannerContent(file)
            case None => []
            case Some(text) => StructurePlan(text, ChunkSize(model), Overlap(model), BreakWindow(ChunkSize(model)))
  {
    hide WellFormed, StructurePlan, ReadPlan, IsCharBoundary;
    if PlannerContent(file).Some? { TextIsSome(file); }
  }

  lemma TextIsSome(file: FileBytes)
    ensures PlannerContent(file).Some? ==> PlannerContent(file).value != []
  {
    hide WellFormed, IsCharBoundary;
    ReadRefinesLongestPrefix(file, CONTENT_BYTE_BUDGET);
  }

  // -------------------------------------------------------------------------
  // Coverage of the text
  // -------------------------------------------------------------------------

  /** Each chunk of the walk ends where a chunk from its start should. */
  lemma {:induction false} SpansEndRight(text: Str, chunkSize: usize, overlap: usize, window: usize, start: usize,
                                         k: nat)
    requires start < |text| && chunkSize > 0 && ValidCuts(text, Scan(text, 0, false))
    requires k < |Spans(text, Scan(text, 0, false), chunkSize, overlap, window, start)|
    ensures var span := Spans(text, Scan(text, 0, false), chunkSize, overlap, window, start)[k];
            EndsRight(text, span.start, chunkSize, window, span.end)
    decreases k
  {
    hide WellFormed, Scan, ValidCuts, ChunkEnd, NextStart, EndsRight;
    var cuts := Scan(text, 0, false);
    var end := ChunkEnd(text, cuts, chunkSize, window, start);
    if k == 0 {
      ChunkEndsRight(text, chunkSize, window, start);
    } else {
      SpansEndRight(text, chunkSize, overlap, window, NextStart(text, overlap, start, end), k - 1);
    }
  }

  /** One chunk if the text fits or the overlap leaves no step; otherwise each ends where it should. */
  ghost predicate AllEndRight(text: seq<byte>, size: nat, overlap: nat, spans: seq<ChunkSpan>) {
    if size >= |text| || overlap >= size then spans == [ChunkSpan(0, Min(|text|, USIZE_MAX))]
    else forall k :: 0 <= k < |spans| ==> EndsRight(text, spans[k].start, size, Max(size / 2, 1), spans[k].end)
  }

  lemma StructurePlanEndsRight(text: Str, size: usize, overlap: usize)
    requires text != [] && size > 0
    ensures AllEndRight(text, size, overlap, StructurePlan(text, size, overlap, BreakWindow(size)))
  {
    hide WellFormed, Scan, EndsRight, Spans;
    ScannedCutsAreValid(text);
    hide ValidCuts;
    if size < |text| && overlap < size {
      var spans := Spans(text, Scan(text, 0, false), size, overlap, BreakWindow(size), 0);
      forall k | 0 <= k < |spans|
        ensures EndsRight(text, spans[k].start, size, BreakWindow(size), spans[k].end)
      {
        SpansEndRight(text, size, overlap, BreakWindow(size), 0, k);
      }
    }
  }

  /** A file read as text: the content chunks cover the text from 0 to its end with the size and overlap of
      the model. There is one if the text fits or the overlap leaves no step; otherwise each ends at the
      best breakpoint of its last half, or at its rounded target. */
  lemma PlanCoversText(file: FileBytes, model: EmbeddingIdentity)
    requires PlannerContent(file).Some? && ChunkSize(model) > 0
    ensures IsLaidOut(PlannedChunks(file, model))
    ensures var text, spans := PlannerContent(file).value, ContentChunks(PlannedChunks(file, model));
            var size, overlap := ChunkSize(model), Overlap(model);
            && Covers(text, if overlap < size then size else |text|, overlap, 0, spans)
            && AllEndRight(text, size, overlap, spans)
  {
    hide WellFormed, ReadPlan, PlannedChunks, PlannerContent, Covers, AllEndRight, StructurePlan, ContentChunks,
      IsLaidOut;
    var text := PlannerContent(file).value;
    TextIsSome(file);
    PlanIsStructurePlan(file, model);
    LaidOutOffsets(PlannedChunks(file, model));
    StructureChunksCover(text, ChunkSize(model), Overlap(model), BreakWindow(ChunkSize(model)));
    StructurePlanEndsRight(text, ChunkSize(model), Overlap(model));
  }

  /** A file that is not read as text, or a chunk size of 0, leaves the filename alone. */
  lemma NameOnlyIff(file: FileBytes, model: EmbeddingIdentity)
    ensures PlannedChunks(file, model) == [ChunkRef(Filename, 0, 0)]
            <==> PlannerContent(file).None? || ChunkSize(model) == 0
  {
    PlanIsStructurePlan(file, model);
    TextIsSome(file);
    hide WellFormed, ReadPlan, PlannerContent, Covers, Scan;
    if PlannerContent(file).Some? && ChunkSize(model) > 0 {
      PlanCoversText(file, model);
      CoverIsSome(PlannerContent(file).value, model, ContentChunks(PlannedChunks(file, model)));
    }
    hide PlannedChunks, StructurePlan;
    var plan := PlannedChunks(file, model);
    assert |ContentChunks(plan)| == |plan| - 1;
    assert |plan| == 1 ==> plan == [plan[0]];
  }

  lemma CoverIsSome(text: seq<byte>, model: EmbeddingIdentity, spans: seq<ChunkSpan>)
    requires Covers(text, if Overlap(model) < ChunkSize(model) then ChunkSize(model) else |text|, Overlap(model), 0,
                    spans)
    ensures spans != []
  {
  }

  lemma {:induction false} CoveredFrom(text: seq<byte>, size: nat, overlap: nat, spans: seq<ChunkSpan>, i: nat, n: nat)
    requires Covers(text, size, overlap, 0, spans) && i < |text| && n < |spans|
    requires forall j :: n < j < |spans| ==> i < spans[j].start
    ensures exists k :: 0 <= k < |spans| && spans[k].start <= i < spans[k].end
    decreases n
  {
    hide LeastOverlap, IsCharBoundary;
    if spans[n].start <= i {
      if n + 1 < |spans| { assert Follows(text, overlap, spans[n], spans[n + 1]); }
      assert i < spans[n].end;
    } else {
      assert n > 0;
      CoveredFrom(text, size, overlap, spans, i, n - 1);
    }
  }

  /** Every byte of the text is in a planned content chunk. */
  lemma EveryByteIsPlanned(file: FileBytes, model: EmbeddingIdentity, i: nat)
    requires PlannerContent(file).Some? && ChunkSize(model) > 0 && i < |PlannerContent(file).value|
    ensures var plan := PlannedChunks(file, model);
            exists k :: 0 < k < |plan| && plan[k].chunkType.Content? && plan[k].start <= i < plan[k].end
  {
    hide WellFormed, ReadPlan, PlannedChunks, PlannerContent, Covers, AllEndRight, IsLaidOut, ContentChunks;
    PlanCoversText(file, model);
    var plan := PlannedChunks(file, model);
    LaidOutOffsets(plan);
    var text, size, overlap := PlannerContent(file).value, ChunkSize(model), Overlap(model);
    var spans := ContentChunks(plan);
    CoverIsSome(text, model, spans);
    CoveredFrom(text, if overlap < size then size else |text|, overlap, spans, i, |spans| - 1);
    var k :| 0 <= k < |spans| && spans[k].start <= i < spans[k].end;
    SpanIsChunk(plan, k);
  }

  lemma LaidOutOffsets(plan: seq<ChunkRef>)
    requires IsLaidOut(plan)
    ensures forall k :: 0 < k < |plan| ==> plan[k].start >= 0 && plan[k].end >= 0
  {
  }

  lemma SpanIsChunk(plan: seq<ChunkRef>, k: nat)
    requires IsLaidOut(plan) && k < |ContentChunks(plan)|
    ensures k + 1 < |plan| && plan[k + 1].chunkType.Content?
    ensures plan[k + 1].start == ContentChunks(plan)[k].start && plan[k + 1].end == ContentChunks(plan)[k].end
  {
  }

  // -------------------------------------------------------------------------
  // Files of encoded text
  // -------------------------------------------------------------------------

  lemma PlannerSeesWholeText(vs: seq<Scalar>)
    requires vs != [] && |EncodeAll(vs)| <= 1024 * 1024 && forall k :: 0 <= k < |vs| ==> vs[k] != 0
    ensures PlannerContent(EncodeAll(vs)).Some? && PlannerContent(EncodeAll(vs)).value == EncodeAll(vs)
  {
    hide WellFormed, ReadPlan, EncodeAll;
    EncodingHasNoZero(vs);
    FittingTextIsReadWhole(vs, CONTENT_BYTE_BUDGET);
  }

  /** A file that encodes scalar values other than NUL and fits the budget is planned to its last byte, and
      with overlap 0 its chunks put back together are the file. */
  lemma WholeFileIsPlanned(vs: seq<Scalar>, model: EmbeddingIdentity, i: nat)
    requires vs != [] && |EncodeAll(vs)| <= 1024 * 1024 && forall k :: 0 <= k < |vs| ==> vs[k] != 0
    requires ChunkSize(model) > 0 && i < |EncodeAll(vs)|
    ensures var file: FileBytes := EncodeAll(vs);
            var plan := PlannedChunks(file, model);
            && IsLaidOut(plan)
            && (exists k :: 0 < k < |plan| && plan[k].chunkType.Content? && plan[k].start <= i < plan[k].end)
            && (Overlap(model) == 0 ==>
                  && (forall k :: 0 <= k < |ContentChunks(plan)| ==>
                        ContentChunks(plan)[k].start <= ContentChunks(plan)[k].end <= |file|)
                  && Slices(file, ContentChunks(plan)) == file)
  {
    var file: FileBytes := EncodeAll(vs);
    PlannerSeesWholeText(vs);
    EveryByteIsPlanned(file, model, i);
    PlanCoversText(file, model);
    hide WellFormed, ReadPlan, PlannedChunks, PlannerContent, AllEndRight, Follows, EncodeAll;
    var spans := ContentChunks(PlannedChunks(file, model));
    if Overlap(model) == 0 { CoverGivesText(file, ChunkSize(model), spans); }
  }

  lemma CoverGivesText(text: seq<byte>, size: nat, spans: seq<ChunkSpan>)
    requires Covers(text, size, 0, 0, spans)
    ensures forall k :: 0 <= k < |spans| ==> spans[k].start <= spans[k].end <= |text|
    ensures Slices(text, spans) == text
  {
    hide Follows;
    forall k | 0 <= k < |spans|
      ensures spans[k].start <= spans[k].end <= |text|
    {
      assert IsChunk(text, size, spans[k]);
    }
    CoverWithoutOverlap(text, size, 0, spans);
  }

  // -------------------------------------------------------------------------
  // What is embedded
  // -------------------------------------------------------------------------

  function JoinInputs(prepared: seq<PreparedChunk>): seq<byte> {
    if prepared == [] then [] else prepared[0].input + JoinInputs(prepared[1..])
  }

  lemma {:induction false} InputsAreSlices(text: seq<byte>, spans: seq<ChunkSpan>, prepared: seq<PreparedChunk>)
    requires |prepared| == |spans|
    requires forall k :: 0 <= k < |spans| ==> spans[k].start <= spans[k].end <= |text|
    requires forall k :: 0 <= k < |spans| ==> prepared[k].input == text[spans[k].start..spans[k].end]
    ensures JoinInputs(prepared) == Slices(text, spans)
    decreases |spans|
  {
    if spans != [] { InputsAreSlices(text, spans[1..], prepared[1..]); }
  }

  lemma InputIsSlice(filepath: seq<byte>, file: FileBytes, model: EmbeddingIdentity, prepared: seq<PreparedChunk>,
                     k: nat)
    requires IsLaidOut(PlannedChunks(file, model)) && PlannerContent(file).Some?
    requires |prepared| == |PlannedChunks(file, model)| && k < |ContentChunks(PlannedChunks(file, model))|
    requires SeesPlannedText(filepath, file, PlannedChunks(file, model)[k + 1], prepared[k + 1])
    ensures var text, span := PlannerContent(file).value, ContentChunks(PlannedChunks(file, model))[k];
            span.start <= span.end <= |text| && prepared[k + 1].input == text[span.start..span.end]
  {
    hide WellFormed, ReadPlan, PlannedChunks, PlannerContent, IsCharBoundary;
  }

  /** Planning a fitting text file without overlap and preparing the planned rows again sends the provider
      the filename and then, piece by piece, exactly the file. */
  lemma EmbeddedInputsAreTheFile(filepath: seq<byte>, vs: seq<Scalar>, model: EmbeddingIdentity)
    requires vs != [] && |EncodeAll(vs)| <= 1024 * 1024 && forall k :: 0 <= k < |vs| ==> vs[k] != 0
    requires ChunkSize(model) > 0 && Overlap(model) == 0
    ensures var file: FileBytes := EncodeAll(vs);
            var r := PreparedChunks(filepath, file, PlannedChunks(file, model));
            && r.Success? && r.value != [] && r.value[0].input == filepath
            && JoinInputs(r.value[1..]) == file
  {
    hide WellFormed, ReadPlan, AllEndRight, Follows, EncodeAll, PreparedChunks, PlannedChunks, IsCharBoundary,
      PlannerContent;
    var file: FileBytes := EncodeAll(vs);
    var plan := PlannedChunks(file, model);
    PlannerSeesWholeText(vs);
    PlanCoversText(file, model);
    var spans := ContentChunks(plan);
    CoverGivesText(file, ChunkSize(model), spans);
    EmbedSeesPlannedText(filepath, file, model, plan);
    var prepared := PreparedChunks(filepath, file, plan).value;
    assert SeesPlannedText(filepath, file, plan[0], prepared[0]);
    forall k | 0 <= k < |spans|
      ensures prepared[1..][k].input == file[spans[k].start..spans[k].end]
    {
      InputIsSlice(filepath, file, model, prepared, k);
    }
    InputsAreSlices(file, spans, prepared[1..]);
  }
}
