/** The slide upload controller: validation of the uploaded file, filtering of
    blank chunks, and the per-chunk embed-and-store loop of `upload_slide`.

    The embedding model and the vector index are external. Their behaviour
    enters as inputs: the length of the test embedding, and for every chunk
    index an outcome (embedding failed, upsert failed, or stored with an
    embedding) together with the generated UUID and the timestamp. */
module SlideController {
  import opened Results
  import opened PyText
  import opened SlideSchema
  import opened Utils

  /** An `HTTPException`, by status code. */
  datatype HttpError = HttpError(statusCode: int)

  const BadRequest: HttpError := HttpError(400)
  const InternalServerError: HttpError := HttpError(500)

  /** `MAX_FILE_SIZE`: 10 MiB. */
  const MaxFileSize: nat := 10 * 1024 * 1024

  /** The dimension of `text-embedding-004` vectors. */
  const ExpectedEmbeddingDimension: nat := 768

  const DefaultContentType: string := "application/octet-stream"

  /** Length of `str(uuid.uuid4())`. */
  const UuidLength: nat := 36

  /** A FastAPI `UploadFile` as the controller sees it. `size` is what
      seeking to the end reports, `None` when seeking or telling raises. */
  datatype UploadFile = UploadFile(
    filename: Option<string>,
    contentType: Option<string>,
    size: Option<nat>)

  /** Python truthiness of an optional string. */
  predicate Truthy(s: Option<string>) {
    s.Some? && s.value != ""
  }

  // ---------------------------------------------------------------------
  // process_file_chunks

  /** The guards of `process_file_chunks` that run before the file is
      processed: a file with a name must be present, then its size must be
      in 1..MaxFileSize. The size is returned. */
  function CheckUpload(file: Option<UploadFile>): (r: Result<nat, HttpError>)
    ensures r.Ok? <==>
      file.Some? && Truthy(file.value.filename) && file.value.size.Some? &&
      0 < file.value.size.value <= MaxFileSize
    ensures r.Ok? ==> r.value == file.value.size.value
    ensures file.None? || !Truthy(file.value.filename) ==> r == Err(BadRequest)
    ensures (file.Some? && Truthy(file.value.filename) && file.value.size.Some? &&
             (file.value.size.value == 0 || file.value.size.value > MaxFileSize)) ==> r == Err(BadRequest)
    ensures r == Err(InternalServerError) <==>
      file.Some? && Truthy(file.value.filename) && file.value.size.None?
  {
    if file.None? || !Truthy(file.value.filename) then Err(BadRequest)
    else
      match file.value.size
      case None => Err(InternalServerError)
      case Some(size) =>
        if size == 0 then Err(BadRequest)
        else if size > MaxFileSize then Err(BadRequest)
        else Ok(size)
  }

  predicate IsBlank(chunk: Document) {
    !HasText(chunk.pageContent)
  }

  /** The positions of the non-blank chunks, in increasing order. */
  function TextIndices(chunks: seq<Document>): (idx: seq<nat>)
    ensures forall j :: 0 <= j < |idx| ==> idx[j] < |chunks|
    ensures forall j, k :: 0 <= j < k < |idx| ==> idx[j] < idx[k]
    ensures forall i :: 0 <= i < |chunks| ==> (i in idx <==> !IsBlank(chunks[i]))
  {
    if chunks == [] then []
    else
      var n := |chunks| - 1;
      TextIndices(chunks[..n]) + if IsBlank(chunks[n]) then [] else [n]
  }

  /** The list comprehension of `process_file_chunks`: the chunks whose
      stripped text is non-empty, in their original order. */
  function KeepNonBlank(chunks: seq<Document>): (r: seq<Document>)
    ensures |r| == |TextIndices(chunks)|
    ensures forall j :: 0 <= j < |r| ==> r[j] == chunks[TextIndices(chunks)[j]]
  {
    if chunks == [] then []
    else
      var n := |chunks| - 1;
      KeepNonBlank(chunks[..n]) + if IsBlank(chunks[n]) then [] else [chunks[n]]
  }

  /** Nothing is left exactly when every chunk is blank; what is left is never blank. */
  lemma KeepNonBlankEmptyIff(chunks: seq<Document>)
    ensures forall j :: 0 <= j < |KeepNonBlank(chunks)| ==> !IsBlank(KeepNonBlank(chunks)[j])
    ensures KeepNonBlank(chunks) == [] <==> forall i :: 0 <= i < |chunks| ==> IsBlank(chunks[i])
  {
    var idx := TextIndices(chunks);
    if idx != [] {
      assert idx[0] in idx;
    } else {
      forall i | 0 <= i < |chunks| ensures IsBlank(chunks[i]) {
        assert i !in idx;
      }
    }
  }

  /** `process_file_chunks`: the upload guards, then `process_uploaded_file`
      (which never raises), then the blank-chunk filter. An empty result is a
      400; the only 500 comes from a failing size probe. */
  function ProcessFileChunks(file: Option<UploadFile>, ing: Ingestion): (r: Result<seq<Document>, HttpError>)
    ensures CheckUpload(file).Err? ==> r == Err(CheckUpload(file).error)
    ensures r.Ok? <==> CheckUpload(file).Ok? && KeepNonBlank(ProcessUploadedFile(ing)) != []
    ensures r.Ok? ==> r.value == KeepNonBlank(ProcessUploadedFile(ing)) && r.value != []
    ensures r.Ok? ==> forall j :: 0 <= j < |r.value| ==> !IsBlank(r.value[j])
    ensures r.Err? ==> r.error == BadRequest || r.error == InternalServerError
    ensures r == Err(InternalServerError) ==> file.Some? && file.value.size.None?
  {
    match CheckUpload(file)
    case Err(e) => Err(e)
    case Ok(_) =>
      var chunks := ProcessUploadedFile(ing);
      if chunks == [] then Err(BadRequest)
      else
        var validChunks := KeepNonBlank(chunks);
        KeepNonBlankEmptyIff(chunks);
        if validChunks == [] then Err(BadRequest) else Ok(validChunks)
  }

  // ---------------------------------------------------------------------
  // upload_slide

  /** What the embedding call and the upsert did for one chunk. */
  datatype ChunkOutcome = EmbedFailed | UpsertFailed | Stored(embedding: Embedding)

  /** The per-chunk environment: the UUID drawn for its id, the timestamp
      taken after embedding, and the outcome. */
  datatype ChunkEnv = ChunkEnv(uuid: string, now: string, outcome: ChunkOutcome)

  /** The metadata dictionary upserted with each chunk's vector. */
  datatype ChunkMetadata = ChunkMetadata(
    slideName: string,
    courseName: string,
    subjectName: string,
    description: string,
    createdAt: string,
    updatedAt: string,
    fileName: string,
    contentType: string,
    chunkIndex: nat,
    totalChunks: nat)

  /** One `(id, embedding, metadata)` triple sent to the index. */
  datatype VectorRecord = VectorRecord(id: string, embedding: Embedding, metadata: ChunkMetadata)

  /** What every chunk of one upload shares. */
  datatype UploadContext = UploadContext(slide: SlideCreate, fileName: string, contentType: string)

  /** `file.content_type or "application/octet-stream"`. */
  function ContentTypeOf(file: UploadFile): (c: string)
    ensures c != ""
    ensures Truthy(file.contentType) ==> c == file.contentType.value
    ensures !Truthy(file.contentType) ==> c == DefaultContentType
  {
    if Truthy(file.contentType) then file.contentType.value else DefaultContentType
  }

  function ContextOf(slide: SlideCreate, file: UploadFile): UploadContext {
    UploadContext(slide, file.filename.GetOr(""), ContentTypeOf(file))
  }

  /** `f"{uuid}_{i}"`. */
  function ChunkId(uuid: string, i: nat): string {
    uuid + "_" + NatToString(i)
  }

  /** Two chunk ids built from UUIDs of the same length are equal only when
      both the UUIDs and the chunk indices are. */
  lemma ChunkIdInjective(u1: string, i1: nat, u2: string, i2: nat)
    requires |u1| == |u2|
    ensures ChunkId(u1, i1) == ChunkId(u2, i2) ==> u1 == u2 && i1 == i2
  {
    var a, b := ChunkId(u1, i1), ChunkId(u2, i2);
    if a == b {
      assert a[..|u1|] == u1 && b[..|u2|] == u2;
      assert a[|u1| + 1..] == NatToString(i1);
      assert b[|u2| + 1..] == NatToString(i2);
      NatToStringInjective(i1, i2);
    }
  }

  /** The metadata of chunk `i` of `total`. */
  function MetadataFor(ctx: UploadContext, i: nat, total: nat, now: string): ChunkMetadata {
    ChunkMetadata(
      ctx.slide.slideName + " (Part " + NatToString(i + 1) + ")",
      ctx.slide.courseName,
      ctx.slide.subjectName,
      ctx.slide.description.GetOr("") + " [Part " + NatToString(i + 1) + " of " + NatToString(total) + "]",
      now,
      now,
      ctx.fileName,
      ctx.contentType,
      i,
      total)
  }

  /** What iteration `i` of the loop stores: nothing for a blank chunk or a
      failed embedding or upsert, otherwise the chunk's vector record. */
  function ChunkRecord(ctx: UploadContext, chunks: seq<Document>, env: nat -> ChunkEnv, i: nat): (r: Option<VectorRecord>)
    requires i < |chunks|
    ensures r.Some? <==> !IsBlank(chunks[i]) && env(i).outcome.Stored?
    ensures r.Some? ==> r.value.metadata.chunkIndex == i
  {
    if IsBlank(chunks[i]) then None
    else
      match env(i).outcome
      case EmbedFailed => None
      case UpsertFailed => None
      case Stored(embedding) =>
        Some(VectorRecord(ChunkId(env(i).uuid, i), embedding, MetadataFor(ctx, i, |chunks|, env(i).now)))
  }

  /** The record stored for chunk `i`: its id ends in `_i`, it carries the
      chunk's embedding, its index and the upload's chunk count, and names and
      describes the part as "Part i+1" (of the total); the rest is copied from
      the form and the file. */
  lemma ChunkRecordFields(ctx: UploadContext, chunks: seq<Document>, env: nat -> ChunkEnv, i: nat)
    requires i < |chunks| && ChunkRecord(ctx, chunks, env, i).Some?
    ensures var v := ChunkRecord(ctx, chunks, env, i).value;
      var m := v.metadata;
      && v.id == env(i).uuid + "_" + NatToString(i)
      && v.embedding == env(i).outcome.embedding
      && m.chunkIndex == i && m.totalChunks == |chunks|
      && m.slideName == ctx.slide.slideName + " (Part " + NatToString(i + 1) + ")"
      && m.description == ctx.slide.description.GetOr("") + " [Part " + NatToString(i + 1) + " of " + NatToString(|chunks|) + "]"
      && m.courseName == ctx.slide.courseName && m.subjectName == ctx.slide.subjectName
      && m.fileName == ctx.fileName && m.contentType == ctx.contentType
      && m.createdAt == m.updatedAt == env(i).now
  {
  }

  /** The records stored by the first `n` iterations, in iteration order. */
  function StoredRecords(ctx: UploadContext, chunks: seq<Document>, env: nat -> ChunkEnv, n: nat): seq<VectorRecord>
    requires n <= |chunks|
  {
    if n == 0 then []
    else
      StoredRecords(ctx, chunks, env, n - 1) +
      match ChunkRecord(ctx, chunks, env, n - 1)
      case None => []
      case Some(v) => [v]
  }

  /** Each stored record is the record of an earlier iteration's chunk, and
      there are no more records than iterations. */
  lemma {:induction false} StoredRecordsSound(ctx: UploadContext, chunks: seq<Document>, env: nat -> ChunkEnv, n: nat)
    requires n <= |chunks|
    ensures var s := StoredRecords(ctx, chunks, env, n);
      && |s| <= n
      && forall j :: 0 <= j < |s| ==>
           s[j].metadata.chunkIndex < n &&
           ChunkRecord(ctx, chunks, env, s[j].metadata.chunkIndex) == Some(s[j])
  {
    if n > 0 {
      StoredRecordsSound(ctx, chunks, env, n - 1);
    }
  }

  /** The stored records appear in strictly increasing chunk order, so no
      chunk is stored twice. */
  lemma {:induction false} StoredRecordsOrdered(ctx: UploadContext, chunks: seq<Document>, env: nat -> ChunkEnv, n: nat)
    requires n <= |chunks|
    ensures var s := StoredRecords(ctx, chunks, env, n);
      forall j, k :: 0 <= j < k < |s| ==> s[j].metadata.chunkIndex < s[k].metadata.chunkIndex
  {
    if n > 0 {
      StoredRecordsOrdered(ctx, chunks, env, n - 1);
      StoredRecordsSound(ctx, chunks, env, n - 1);
    }
  }

  /** A failure skips only its own chunk: every chunk that has text and whose
      embedding and upsert succeed is among the stored records, at position `j`. */
  lemma {:induction false} StoredRecordsComplete(ctx: UploadContext, chunks: seq<Document>, env: nat -> ChunkEnv, n: nat, i: nat)
    returns (j: nat)
    requires i < n <= |chunks|
    requires !IsBlank(chunks[i]) && env(i).outcome.Stored?
    ensures j < |StoredRecords(ctx, chunks, env, n)|
    ensures StoredRecords(ctx, chunks, env, n)[j].metadata.chunkIndex == i
  {
    var prev := StoredRecords(ctx, chunks, env, n - 1);
    var last := match ChunkRecord(ctx, chunks, env, n - 1) case None => [] case Some(v) => [v];
    assert StoredRecords(ctx, chunks, env, n) == prev + last;
    if i < n - 1 {
      j := StoredRecordsComplete(ctx, chunks, env, n - 1, i);
    } else {
      j := |prev|;
    }
  }

  /** With UUIDs of the canonical length, no two chunks of one upload share
      an id, so no upsert of the upload overwrites another. */
  lemma StoredIdsDistinct(ctx: UploadContext, chunks: seq<Document>, env: nat -> ChunkEnv, n: nat)
    requires n <= |chunks|
    requires forall i :: 0 <= i < n ==> |env(i).uuid| == UuidLength
    ensures var s := StoredRecords(ctx, chunks, env, n);
      forall j, k :: 0 <= j < k < |s| ==> s[j].id != s[k].id
  {
    StoredRecordsSound(ctx, chunks, env, n);
    StoredRecordsOrdered(ctx, chunks, env, n);
    var s := StoredRecords(ctx, chunks, env, n);
    forall j, k | 0 <= j < k < |s| ensures s[j].id != s[k].id {
      var a, b := s[j].metadata.chunkIndex, s[k].metadata.chunkIndex;
      ChunkRecordFields(ctx, chunks, env, a);
      ChunkRecordFields(ctx, chunks, env, b);
      ChunkIdInjective(env(a).uuid, a, env(b).uuid, b);
    }
  }

  /** The `SlideInDB` built from a stored record: the same id as vector id,
      every metadata field but `chunk_index` and `total_chunks` copied. */
  function ToSlideInDB(v: VectorRecord): (s: SlideInDB)
    ensures s.id == s.vectorId == v.id && s.embedding == v.embedding
    ensures s.description == Some(v.metadata.description)
    ensures && s.slideName == v.metadata.slideName
            && s.courseName == v.metadata.courseName
            && s.subjectName == v.metadata.subjectName
    ensures s.createdAt == v.metadata.createdAt && s.updatedAt == v.metadata.updatedAt
    ensures s.fileName == v.metadata.fileName && s.contentType == v.metadata.contentType
  {
    var m := v.metadata;
    SlideInDB(v.id, m.slideName, m.courseName, m.subjectName, Some(m.description),
              m.createdAt, m.updatedAt, m.fileName, m.contentType, v.id, v.embedding)
  }

  function AsSlides(records: seq<VectorRecord>): (r: seq<SlideInDB>)
    ensures |r| == |records|
    ensures forall j :: 0 <= j < |r| ==> r[j] == ToSlideInDB(records[j])
  {
    if records == [] then []
    else AsSlides(records[..|records| - 1]) + [ToSlideInDB(records[|records| - 1])]
  }

  /** The form fields `upload_slide` insists on. */
  predicate FormComplete(data: Option<SlideCreate>, file: Option<UploadFile>) {
    && data.Some? && file.Some?
    && data.value.slideName != "" && data.value.courseName != "" && data.value.subjectName != ""
  }

  /** The `for i, chunk in enumerate(chunks)` loop of `upload_slide`: blank
      chunks and chunks whose embedding or upsert fails are skipped. */
  method StoreChunks(ctx: UploadContext, chunks: seq<Document>, env: nat -> ChunkEnv)
    returns (results: seq<SlideInDB>, stored: seq<VectorRecord>)
    ensures stored == StoredRecords(ctx, chunks, env, |chunks|)
    ensures results == AsSlides(stored)
  {
    stored := [];
    results := [];
    var i := 0;
    while i < |chunks|
      invariant 0 <= i <= |chunks|
      invariant stored == StoredRecords(ctx, chunks, env, i)
      invariant results == AsSlides(stored)
    {
      if IsBlank(chunks[i]) {
        assert ChunkRecord(ctx, chunks, env, i) == None;
        i := i + 1;
        continue;
      }
      var chunkId := ChunkId(env(i).uuid, i);
      match env(i).outcome {
        case EmbedFailed =>
          assert ChunkRecord(ctx, chunks, env, i) == None;
        case UpsertFailed =>
          assert ChunkRecord(ctx, chunks, env, i) == None;
        case Stored(embedding) =>
          var metadata := MetadataFor(ctx, i, |chunks|, env(i).now);
          var record := VectorRecord(chunkId, embedding, metadata);
          assert ChunkRecord(ctx, chunks, env, i) == Some(record);
          stored := stored + [record];
          results := results + [ToSlideInDB(record)];
      }
      i := i + 1;
    }
  }

  /** `upload_slide`. Returns the response and the records upserted into the
      index, in upsert order. */
  method UploadSlide(data: Option<SlideCreate>, file: Option<UploadFile>, ing: Ingestion,
                     testDimension: Option<nat>, env: nat -> ChunkEnv)
    returns (r: Result<seq<SlideInDB>, HttpError>, stored: seq<VectorRecord>)
    ensures !FormComplete(data, file) ==> r == Err(BadRequest) && stored == []
    ensures FormComplete(data, file) && ProcessFileChunks(file, ing).Err? ==>
      r == Err(ProcessFileChunks(file, ing).error) && stored == []
    ensures FormComplete(data, file) && ProcessFileChunks(file, ing).Ok? &&
            testDimension != Some(ExpectedEmbeddingDimension) ==>
      r == Err(InternalServerError) && stored == []
    ensures FormComplete(data, file) && ProcessFileChunks(file, ing).Ok? &&
            testDimension == Some(ExpectedEmbeddingDimension) ==>
      var chunks := ProcessFileChunks(file, ing).value;
      && stored == StoredRecords(ContextOf(data.value, file.value), chunks, env, |chunks|)
      && r == if stored == [] then Err(BadRequest) else Ok(AsSlides(stored))
    ensures r.Err? ==> r.error == BadRequest || r.error == InternalServerError
    ensures r.Ok? ==> r.value != [] && r.value == AsSlides(stored)
    ensures r.Ok? ==> FormComplete(data, file) && ProcessFileChunks(file, ing).Ok? &&
                      |r.value| <= |ProcessFileChunks(file, ing).value|
  {
    stored := [];
    if data.None? || file.None? {
      r := Err(BadRequest);
      return;
    }
    var slide, upload := data.value, file.value;
    if slide.slideName == "" || slide.courseName == "" || slide.subjectName == "" {
      r := Err(BadRequest);
      return;
    }
    var processed := ProcessFileChunks(file, ing);
    if processed.Err? {
      r := Err(processed.error);
      return;
    }
    var chunks := processed.value;
    assert chunks != [];  // the controller's second emptiness check cannot fire
    if testDimension.None? || testDimension.value != ExpectedEmbeddingDimension {
      r := Err(InternalServerError);
      return;
    }
    var results;
    results, stored := StoreChunks(ContextOf(slide, upload), chunks, env);
    StoredRecordsSound(ContextOf(slide, upload), chunks, env, |chunks|);
    if results == [] {
      r := Err(BadRequest);
    } else {
      r := Ok(results);
    }
  }
}
