/** The records of lib/types.ts that the pipeline passes around. */
module Types {
  import opened Wrappers

  /** A JSON value the model never looks inside (jsonb metadata, `unknown`),
      kept as its serialised text. */
  type Json = string

  /** A JSON value as far as a schema looks at it: an object, whose member
      values stay opaque, or any other value (null, a number, a string, a
      boolean or an array), kept as its serialised text. */
  datatype JsonValue = JsonObject(members: map<string, Json>) | JsonOther(text: Json)

  /** Chunker configuration: character budget, overlap carried into the next
      chunk, and the separator `chunkText` splits on. */
  datatype ChunkOptions = ChunkOptions(chunkSize: int, chunkOverlap: int, separator: string)

  /** `Partial<ChunkOptions>`: every field may be left `undefined`. */
  datatype ChunkOptionsInput = ChunkOptionsInput(chunkSize: Option<int>, chunkOverlap: Option<int>, separator: Option<string>)

  /** One emitted chunk with its provisional character span. */
  datatype TextChunk = TextChunk(text: string, index: int, startChar: int, endChar: int)

  /** A row of the nearest-neighbour query, with its distance to the query. */
  datatype RetrievedChunk = RetrievedChunk(id: int, text: string, index: int, metadata: Json, documentId: int, distance: real)

  datatype Citation = Citation(documentId: int, chunkIndex: int, snippet: string)

  /** The body the ask endpoint answers with; `citations` is optional in the type. */
  datatype LLMResponse = LLMResponse(answer: string, citations: Option<seq<Citation>>)
}
