# Slide ingestion service: a Dafny model of upload validation and chunk storage

The service takes an uploaded course-slide document (PDF, Word, PowerPoint,
Excel, plain text). It saves the upload to a temporary file, sniffs its MIME
type, picks a document loader and splits the text into chunks. Then it embeds
every chunk and upserts one vector per chunk into a vector index.

This project models the deterministic decisions around those external calls:

- the upload guards (file present, named, 1 byte to 10 MiB);
- the MIME-type table and the loader dispatch;
- the save-load-chunk pipeline, which never raises;
- the blank-chunk filter;
- the per-chunk embed-and-upsert loop of `upload_slide`, with the record it
  builds for chunk `i`;
- the temp-file suffix rule, the slide-metadata defaults, and the page fold
  of `extract_text_from_pdf`.

Files:

- `results.dfy`: `Option` and `Result`.
- `pytext.dfy`: the Python `str` behaviour the code relies on: `isspace`,
  `strip`, `lstrip`, and `str(n)` with its inverse.
- `schemas.dfy`: the record shapes `SlideCreate`, `SlideInDB` and `Document`.
- `utils.dfy`: `src/app/utils.py`.
- `slide_controller.dfy`: `src/app/controllers/slide_controller.py`.

How the external parts enter the model:

- `Ingestion` holds what the external collaborators of one upload did:
  - whether the temporary file was written;
  - the sniffed MIME type (`None` if sniffing raised);
  - what each loader returns (`None` if it raises);
  - what the splitter returns.
- The embedding client is represented only by the length of its test
  embedding (`None` if creating the client or the test call raised).
- Each chunk index has a `ChunkEnv` input. It holds the UUID prefix of the
  chunk id, the timestamp, and the outcome: the embedding failed, the upsert
  failed, or the vector was stored.

`UploadSlide` returns the HTTP outcome and the sequence of vector records
actually upserted. So "nothing is stored before the dimension check" is a
statement about the result.

Where the service's own description and its code differ, the model follows the code:

- Plain text is described as an ingestible format, and `text/plain` is in the
  MIME table. But `load_document` has no loader for `.txt`, so such an upload
  always ends in a 400 (`Utils.PlainTextNeverLoads`).
- The `SlideInDB` objects returned to the client have no `chunk_index` or
  `total_chunks` fields: the schema does not declare them and extra keys are
  dropped. The chunk order is therefore stated on the upserted metadata, and
  result `j` is proved to be the `SlideInDB` view of upserted record `j`.

## Model

| member | source | states |
|---|---|---|
| `PyText.LStripBy` | src/app/utils.py:49 | `lstrip`: the result is no longer than the text, everything removed is strippable, and the result does not start with a strippable character (that it is a suffix is `PyText.LStripBySuffix`) |
| `PyText.LStripBySuffix` | src/app/utils.py:49 | what `lstrip` leaves is exactly the trailing part of the text |
| `PyText.RStripBy` | src/app/controllers/slide_controller.py:57 | `rstrip` (the second half of `strip()`): a prefix of the text, everything removed is whitespace, and the result does not end in whitespace |
| `PyText.StripNonEmptyIff` | src/app/controllers/slide_controller.py:57 | `strip()` is non-empty exactly when the text has a non-whitespace character; this justifies the blank test used by the filter and the loop |
| `PyText.HasTextExists` | src/app/controllers/slide_controller.py:148 | a chunk counts as non-blank exactly when some character of its text is not whitespace |
| `PyText.NatToString` | src/app/controllers/slide_controller.py:153 | `str(n)`: at least one decimal digit and no leading zero |
| `PyText.NatToStringRoundTrip` | src/app/controllers/slide_controller.py:167 | reading back the digits of `str(n)` gives `n` |
| `PyText.NatToStringInjective` | src/app/controllers/slide_controller.py:170 | different integers render as different strings |
| `Utils.GetFileExtension` | src/app/utils.py:40-44 | an extension is found exactly for MIME types in the table |
| `Utils.GetFileExtensionCases` | src/app/utils.py:29-38 | the table entry for each of the eight MIME types, and `None` for every other type |
| `Utils.LoaderFor` | src/app/utils.py:64-74 | the loader chosen for an extension is the one whose extension set contains it; any other extension has no loader |
| `Utils.MimeLoaderIff` | src/app/utils.py:57-74 | a MIME type gets a loader exactly when it is in the table and is not `text/plain` |
| `Utils.LoadDocument` | src/app/utils.py:57-79 | an unlisted MIME type is an "unsupported file type" error; loading succeeds exactly when a loader exists and does not raise, and then returns that loader's documents |
| `Utils.PlainTextNeverLoads` | src/app/utils.py:37 | `text/plain` maps to `.txt`, yet loading it always fails with "no loader available", whatever the loaders would do |
| `Utils.NormaliseSuffix` | src/app/utils.py:49 | empty exactly for an empty suffix; otherwise one dot, then the suffix with its leading dots removed |
| `Utils.NormalisedSuffixFixed` | src/app/utils.py:49 | a suffix made of one dot and then a non-dot is left unchanged |
| `Utils.NormaliseSuffixIdempotent` | src/app/utils.py:49 | normalising twice equals normalising once |
| `Utils.ProcessUploadedFile` | src/app/utils.py:92-123 | never raises; the result is non-empty exactly when saving, loading (non-empty) and chunking (non-empty) all succeed, and it is then the splitter's chunks |
| `Utils.GenerateSlideMetadata` | src/app/utils.py:125-144 | `created_at == updated_at == now`; without a slide all four text fields are empty |
| `Utils.MetadataOfSlide` | src/app/utils.py:137-144 | for a slide object, the three names are copied and a `None` description becomes `""` |
| `Utils.MetadataOfObject` | src/app/utils.py:137-144 | for any object argument, each of the three names is its attribute when present and `''` when missing; the description is its attribute through `or ""`, or `""` when missing |
| `Utils.DictArgumentIgnored` | src/app/utils.py:138 | a dictionary that holds a slide name still yields an empty slide name |
| `Utils.GenerateSlideMetadataFixed` | src/app/utils.py:125-144 | the same as the original on objects and on `None`; for a dictionary, each present entry is used |
| `Utils.ExtractTextFromPdf` | src/app/utils.py:150-159 | the loop builds the concatenation of the page texts in page order, each followed by a newline |
| `Utils.PagesTextLength` | src/app/utils.py:156-158 | the text is as long as all pages together plus one newline per page |
| `Utils.PagesTextAppend` | src/app/utils.py:156-158 | the fold over two page lists joined is the join of the two folds |
| `Utils.PageAt` | src/app/utils.py:156-158 | page `k` appears in the text right after the earlier pages' text and is followed by a newline |
| `SlideController.CheckUpload` | src/app/controllers/slide_controller.py:19-45 | passes exactly when a named file has size in 1..10 MiB; a missing file or name is a 400 whatever the size probe does; size 0 or above the maximum is a 400; a failing size probe is the only 500 |
| `SlideController.TextIndices` | src/app/controllers/slide_controller.py:57 | the positions of the non-blank chunks: in range, strictly increasing, and including a position exactly when its chunk is non-blank |
| `SlideController.KeepNonBlank` | src/app/controllers/slide_controller.py:57 | the filtered list is the input chunks at exactly those positions, in order |
| `SlideController.KeepNonBlankEmptyIff` | src/app/controllers/slide_controller.py:57-63 | no kept chunk is blank, and nothing is kept exactly when every chunk is blank |
| `SlideController.ProcessFileChunks` | src/app/controllers/slide_controller.py:21-74 | guard errors come first; success exactly when the guards pass and some chunk is non-blank, and then the result is the non-blank chunks (never empty); errors are 400 or 500, and a 500 only from the size probe |
| `SlideController.ContentTypeOf` | src/app/controllers/slide_controller.py:174 | the file's content type if it is set (truthy), otherwise exactly `"application/octet-stream"` |
| `SlideController.ChunkIdInjective` | src/app/controllers/slide_controller.py:153 | ids `uuid_i` built from UUIDs of equal length are equal only for the same UUID and index |
| `SlideController.ChunkRecord` | src/app/controllers/slide_controller.py:146-201 | iteration `i` stores something exactly when chunk `i` is non-blank and both its embedding and upsert succeed, and what it stores carries `chunk_index = i` |
| `SlideController.ChunkRecordFields` | src/app/controllers/slide_controller.py:153-194 | the record for chunk `i`: id `uuid + "_" + str(i)`; the chunk's embedding; `chunk_index = i`; `total_chunks = len(chunks)`; name `"name (Part i+1)"`; description `"(desc or '') [Part i+1 of total]"`; course, subject, file name and content type copied; `created_at == updated_at` |
| `SlideController.StoredRecordsSound` | src/app/controllers/slide_controller.py:146-205 | at most one record per iteration, and each stored record is the record of an earlier chunk |
| `SlideController.StoredRecordsOrdered` | src/app/controllers/slide_controller.py:146-205 | stored records have strictly increasing chunk indices |
| `SlideController.StoredRecordsComplete` | src/app/controllers/slide_controller.py:146-205 | a failed or blank chunk skips only itself: every non-blank chunk whose embedding and upsert succeed is stored |
| `SlideController.StoredIdsDistinct` | src/app/controllers/slide_controller.py:153 | with UUIDs of the 36-character canonical length, no two stored vectors of an upload share an id |
| `SlideController.ToSlideInDB` | src/app/controllers/slide_controller.py:190-195 | the returned object's `id` and `vector_id` are both the chunk id; it carries the stored embedding and copies the stored slide, course and subject names, the description, both timestamps, the file name and the content type from the upserted metadata (so its name is the `(Part i+1)` name) |
| `SlideController.AsSlides` | src/app/controllers/slide_controller.py:196 | result `j` is the `SlideInDB` view of upserted record `j` |
| `SlideController.StoreChunks` | src/app/controllers/slide_controller.py:143-205 | the loop upserts exactly the records of the specification, in order, and returns their `SlideInDB` views |
| `SlideController.UploadSlide` | src/app/controllers/slide_controller.py:76-223 | missing form data or file is a 400 before the file is looked at; file errors propagate; a test embedding whose length is not 768 (or a failing client) is a 500 with nothing stored; otherwise the stored records are those of the specification; no success is a 400; success returns at most as many results as chunks |

## Left out

- MIME sniffing with `magic`: the sniffed type is an input of `Ingestion`, and a sniffing failure is its `None`.
- Document loaders and the recursive character splitter are external libraries. Each loader's result and the splitter's result are inputs. The chunk size (1000) and overlap (200) are therefore not modelled.
- The Google embedding client and the Pinecone index are network clients. Only their outcomes per chunk and the length of the test embedding enter. Embedding values are sequences of reals that the model never inspects, and floating-point behaviour is not modelled.
- `search_slides` is left out: it is a query against the external index plus a record conversion. `database.py` is left out too.
- `get_slides` and `get_slide` are stubs that always return an empty list or a 404. They are not modelled.
- `uuid.uuid4()` and `datetime.utcnow()` are nondeterministic: the UUID prefix and timestamp of each chunk are inputs. `StoredIdsDistinct` assumes the prefixes have the 36-character length of `str(uuid4())`.
- Writing and deleting the temporary file is filesystem I/O. Only whether saving succeeded is an input; errors during cleanup are caught and cannot change the result. `process_uploaded_file` calls `save_upload_file` with the default empty suffix, so `NormaliseSuffix` stands alone and is not used by `ProcessUploadedFile`.
- `extract_text_from_pdf` receives the pages' extracted texts. Parsing the PDF bytes is left out.
- Pydantic validation is left out: timestamps stay strings and are not parsed into `datetime`.
- The filter's `chunk and hasattr(chunk, 'page_content')` tests are not modelled. The splitter always yields documents that have text, so only the `strip()` test is.
- The outer `except Exception` of both controller functions turns anything else into a 500. In the model, only the size probe reaches it (slide_controller.py:31-33, caught at 69-74). The embedding client's failure gets its 500 from its own inner handler (slide_controller.py:135-140). A failing embedding or upsert call for one chunk is caught and skipped (slide_controller.py:158-160, 199-201). So nothing in `upload_slide` reaches its outer handler at slide_controller.py:218. The second emptiness check after `process_file_chunks` can never fire, and the model proves this instead of modelling it.
- Logging, the text of error messages (including the formatted size message), HTTP routing, CORS and configuration loading are left out.

## Findings

| source | as written | input that shows it | evidently intended | confidence | as-written member | corrected member |
|---|---|---|---|---|---|---|
| src/app/utils.py:125-141 | The argument is declared as an optional dictionary, but its fields are read as attributes with a default of `''`. A dictionary's keys are not attributes, so every field comes out empty. | `generate_slide_metadata({"slide_name": "Intro"})` gives `slide_name == ""` | take each field from the dictionary's entry when present | medium; not executed | `Utils.DictArgumentIgnored` (on `Utils.GenerateSlideMetadata`) | `Utils.GenerateSlideMetadataFixed` |
