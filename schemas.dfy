/** Record shapes of the slide service: the upload form (`SlideCreate`), the
    per-chunk object handed back to the client (`SlideInDB`), and the values
    the document loaders and the embedding model produce. */
module SlideSchema {
  import opened Results

  /** A LangChain `Document`; only its text matters here. */
  datatype Document = Document(pageContent: string)

  /** An embedding vector. Its floating-point values are never inspected. */
  datatype Embedding = Embedding(values: seq<real>)

  /** The fields of `SlideCreate` that the controller reads; `description` is
      the optional form field. */
  datatype SlideCreate = SlideCreate(
    slideName: string,
    courseName: string,
    subjectName: string,
    description: Option<string>)

  /** `SlideInDB`: a `Slide` with its vector id and embedding. It has no
      chunk-index fields, so the upload's `chunk_index` and `total_chunks`
      keys do not survive into it. */
  datatype SlideInDB = SlideInDB(
    id: string,
    slideName: string,
    courseName: string,
    subjectName: string,
    description: Option<string>,
    createdAt: string,
    updatedAt: string,
    fileName: string,
    contentType: string,
    vectorId: string,
    embedding: Embedding)
}
