# Handbook assistant: ingestion and retrieval core in Dafny

The system answers questions about a student handbook. Documents are cleaned
and cut into chunks. Each chunk is embedded by an external model and stored in
Postgres with pgvector. A question is answered by retrieving the nearest chunks,
filling them into a prompt, and asking a hosted language model. The reply
cites the chunks it was given.

This project models the pure parts of that pipeline:

- the two chunkers;
- the text normaliser;
- the batch embedder, with the provider as a parameter;
- the guards of the cosine similarity;
- the pgvector wire format and the integrity rules of the three tables;
- the zod request and response schemas, as predicates;
- the `/api/ask` route. Retrieval and generation are parameters; the guard,
  the context and prompt text, the citations and the error replies are
  modelled exactly.

JavaScript string semantics are written out in `JsString`:

- `split`, `trim` (the ECMAScript whitespace set) and `slice` with negative
  indices;
- `indexOf`;
- `replace` with a string pattern: only the first occurrence, with the `$`
  replacement patterns;
- number printing.

`parseFloat` (section 19.2.4 of ECMA-262) is written out in `VectorColumn`,
for the prefixes the vector format produces.

A string is a sequence of UTF-16 code units (`seq<char>`).

Modules, one per source file (plus the string and wrapper helpers):
`Wrappers`, `JsString`, `Types`, `Chunking` and `SemanticChunking`,
`TextExtraction`, `Embeddings`, `VectorColumn` and `Database`, `Validation`,
`AskRoute`.

## Model

| member | source | states |
|---|---|---|
| Chunking.ChunkText | lib/chunking.ts:6-70 | Fails exactly when the resolved `chunkSize <= chunkOverlap`, before any splitting, with defaults 1000/200/"\n\n". Otherwise the chunks are numbered 0..N-1 in emission order, each text is trimmed and non-empty, every `startChar < endChar` and the ends strictly increase. The list is empty exactly when no separator-delimited section is non-blank. The budget rule holds for every run. Each chunk but the last was closed by a section of the text that would have taken it past `chunkSize`. Each chunk starts with its opening: the first section, or the previous chunk's carried tail followed by the section that closed that chunk. A chunk that took in more than its opening is at most one separator longer than `chunkSize`. |
| Chunking.ChunkTextSpans | lib/chunking.ts:23-65 | Take the non-blank sections joined by the separator. Each chunk's untrimmed text is the piece of that string ending one separator before its `endChar`. The last chunk's `endChar` is one separator past the end. |
| Chunking.ChunkTextOverlap | lib/chunking.ts:34-45 | Each chunk after the first begins with `slice(-chunkOverlap)` of the previous running chunk. That tail is followed by the separator only when it is not empty. The chunk starts that many characters before the previous chunk's end. |
| Chunking.ZeroOverlapCarriesWholeChunk | lib/chunking.ts:43-44 | With `chunkOverlap` 0 the carried tail is the whole previous chunk, because `slice(-0)` is `slice(0)`. |
| Chunking.ChunkTextOverBudget | lib/chunking.ts:33-53 | The budget check leaves out the separator it then inserts: "aa\n\nbbb" with `chunkSize` 5 is one chunk of 7 characters. |
| Chunking.SectionsJoin | lib/chunking.ts:23 | When no piece of the split is blank, the sections joined by the separator give back the input text, so the chunk spans are spans of the text itself. |
| SemanticChunking.SemanticChunkGrounded | lib/chunking.ts:93-152 | The re-index map keeps the length and every non-index field of `splitRecursive`'s chunks and sets chunk i's index to i. Every chunk text is trimmed and occurs contiguously in the input. |
| SemanticChunking.SemanticChunkShort | lib/chunking.ts:94-100 | Text no longer than `chunkSize` comes back as exactly one chunk: its trim, spanning 0..length. This holds even when the trim is empty. |
| SemanticChunking.SemanticChunkBlank | lib/chunking.ts:94-141 | All-whitespace input yields only chunks with empty text. |
| SemanticChunking.BlankLongTextHasNoChunk | lib/chunking.ts:94-141 | Two spaces with `chunkSize` 1 yield no chunk, because the blank last running chunk is dropped. The empty text yields one empty chunk. |
| SemanticChunking.BlankPieceBecomesEmptyChunk | lib/chunking.ts:110-141 | A blank piece closed in the middle of a level is pushed without a blank check: "  \n\n\n  " with `chunkSize` 3 yields one chunk with empty text. That text is shorter than the 10 characters the chunk schema requires. |
| SemanticChunking.LastPieceNotSplit | lib/chunking.ts:110-141 | A four-letter word with `chunkSize` 1 comes back as one chunk, not split again. Its offsets 3..7 count the separator added after every piece. The chunk is over the budget and does not start at offset 0. |
| SemanticChunking.NoSectionBreakOneChunk | lib/chunking.ts:93-141 | Any text without "\n\n\n" is one piece at the first level, and that piece is the level's last running chunk. So the text comes back as at most one chunk, whatever its length. When the text is not blank, that chunk is exactly its trim. |
| SemanticChunking.CleanedDocumentIsOneChunk | scripts/prefill-database.ts:31-55 | Ingestion chunks the output of `cleanText`, which has no "\n\n\n" and no surrounding whitespace. So every document becomes at most one chunk, the whole cleaned text, whatever the options. |
| SemanticChunking.SemanticChunkIntendedWithinBudget | lib/chunking.ts:110-141 | In the corrected split, every level's last running chunk is split again when it is too long, like the others. Then every chunk's untrimmed span is at most `chunkSize`, unless the chunk is a whole piece no separator was left to split. |
| SemanticChunking.IntendedSkipsAbsentSeparator | lib/chunking.ts:84-114 | In the corrected split, a separator that does not occur in a long, non-blank text is skipped and the next one is tried. |
| TextExtraction.CleanText | lib/text-extraction.ts:84-90 | The cleaned text is never longer than the input. |
| TextExtraction.CleanTextVisible | lib/text-extraction.ts:84-90 | Cleaning keeps every non-whitespace character, in order. The result has no leading or trailing whitespace, and it is empty exactly when the input is all whitespace. |
| TextExtraction.CleanTextShape | lib/text-extraction.ts:87-88 | The cleaned text has no run of three newlines, no tab and no two consecutive spaces. |
| TextExtraction.CleanTextIdempotent | lib/text-extraction.ts:85-89 | On text without a carriage return, cleaning twice is cleaning once. |
| TextExtraction.CleanTextCarriageReturnNotIdempotent | lib/text-extraction.ts:86-89 | With carriage returns it is not: "a\r\r\n\nb" cleans to "a\r\n\nb", which cleans again to "a\n\nb". |
| Embeddings.GenerateEmbedding | lib/embeddings.ts:9-25 | Succeeds exactly when the provider returns a present, non-empty vector, and returns that vector unchanged, with no check against 768. Every failure is rethrown with the prefix "Failed to generate embedding: ". |
| Embeddings.EmbedOrZero | lib/embeddings.ts:9-53 | One text's outcome in the batch, stated against the provider's reply: the vector it returned when that vector is present and non-empty; 768 zeros when the call threw or the vector was missing or empty. |
| Embeddings.GenerateEmbeddingsBatch | lib/embeddings.ts:27-60 | Position j of the output is the outcome for `texts[j]`, so the output has the input's length and `[]` gives `[]`. The slices sent are consecutive, 1..batchSize long, concatenate to the input, and number ceil(n/batchSize). Progress line k reads "Processing batch k+1/total". |
| Embeddings.CosineSimilarity | lib/embeddings.ts:62-82 | The loop computes the reference definition: it fails exactly when the lengths differ, is exactly zero when a squared norm is zero, and otherwise is dot product over the two norms. |
| Embeddings.SumSquaresZero | lib/embeddings.ts:73-74 | A squared norm is non-negative, and zero exactly for the all-zero vector. |
| Embeddings.CosineSymmetric | lib/embeddings.ts:67-81 | Swapping the arguments keeps the failure and the zero case, keeps the dot product, and swaps the two norms, so the value is the same. |
| Embeddings.CosineZeroCase | lib/embeddings.ts:77-79 | For equal lengths, the result is the exact zero exactly when one of the vectors is all zeros. |
| Embeddings.CosineSelf | lib/embeddings.ts:67-81 | A non-zero vector compared with itself has dot product and both norms equal to its squared norm, a ratio of one. |
| VectorColumn.ToDriver | db/schema.ts:20-22 | The literal is bracketed: it starts with "[" and ends with "]". |
| VectorColumn.FromDriver | db/schema.ts:23-29 | A non-string or empty value reads as `[]`. Any other string reads as at least one number. |
| VectorColumn.FromDriverCount | db/schema.ts:25-28 | A non-empty string reads as one number more than it has commas. |
| VectorColumn.StripBracketsShape | db/schema.ts:26 | The bracket strip removes at most one leading "[" and one trailing "]", and only when they are there. |
| VectorColumn.ParseFloatIntToString | db/schema.ts:28 | `parseFloat` of a printed integer gives that integer back. |
| VectorColumn.RoundTrip | db/schema.ts:20-28 | For every non-empty vector, reading back what `toDriver` wrote gives the same numbers in the same order. |
| VectorColumn.EmptyVectorReadsAsNaN | db/schema.ts:21-28 | The empty vector is written "[]" and read back as one NaN, not as `[]`. |
| Database.InsertDocument | db/schema.ts:33-46 | A document is stored under a fresh serial id and nothing else changes. The integrity invariant is kept. |
| Database.InsertChunk | db/schema.ts:49-65 | Refused with a foreign-key violation exactly when the document does not exist. Otherwise the chunk is added under a fresh id and the invariant is kept. |
| Database.InsertEmbedding | db/schema.ts:68-86 | Accepted exactly when the vector has 768 components, the chunk has no embedding yet, and the chunk exists, with the dimension error reported first. The invariant is kept. |
| Database.DeleteDocument | db/schema.ts:53-55 | The cascade removes exactly the document, its chunks and their embeddings, and keeps the invariant. |
| Database.DeleteChunk | db/schema.ts:72-75 | Removes exactly the chunk and, in a valid store, exactly its embedding. The invariant is kept. |
| Database.DeleteEmbedding | db/schema.ts:68-75 | Removes exactly that row; documents and chunks are unchanged. The invariant is kept. |
| Database.EmptyValid | db/schema.ts:33-86 | The empty database satisfies the integrity invariant: foreign keys, one embedding per chunk, dimension 768. |
| Database.SecondEmbeddingRefused | db/schema.ts:72-75 | Once a chunk has an embedding, a second one is refused as a uniqueness violation, whatever its vector. |
| Database.DeleteDocumentLeavesNoTrace | db/schema.ts:53-55 | After deleting a document, no chunk refers to it and no embedding refers to one of its chunks. |
| Validation.EmailIssuesSpec | lib/validation.ts:3-7 | No issue exactly when the address passes the format check and ends in "usc.edu.ph". A failed format check reports "Invalid email address". |
| Validation.EmailSuffixIsNotDomain | lib/validation.ts:4-6 | The suffix test is on characters, so an address at "notusc.edu.ph" passes it. |
| Validation.DocumentIssuesSpec | lib/validation.ts:9-14 | No issue exactly when the title is non-empty, the type is one of handbook, rulebook, policy, guide, other, and the metadata, if given, is a JSON object. Metadata that is null, a number, a string, a boolean or an array is reported as an invalid type. |
| Validation.ChunkIssuesSpec | lib/validation.ts:16-25 | No issue exactly when the document id is a positive integer, the text has at least 10 characters, and the index is a non-negative integer. The optional metadata adds no condition. |
| Validation.EmbeddingIssuesSpec | lib/validation.ts:27-30 | No issue exactly when the chunk id is a positive integer and the vector has exactly 768 components, the stored dimension. At most three issues are reported. |
| Validation.RoleIssuesSpec | lib/validation.ts:34-37 | The history has no role issue exactly when every role is "user" or "assistant". |
| Validation.UserQueryIssuesSpec | lib/validation.ts:32-42 | No issue exactly when the question has 3 to 500 characters and every history role is allowed. |
| Validation.ScoreIssuesSpec | lib/validation.ts:46-56 | The sources have no score issue exactly when every relevance score lies in [0, 1]. |
| Validation.LLMResponseIssuesSpec | lib/validation.ts:44-58 | No issue exactly when the answer is non-empty, every score lies in [0, 1], and the confidence is high, medium or low. |
| AskRoute.RenderContextSnoc | app/api/ask/route.ts:29-31 | The context lists the chunks in retrieval order. Each further chunk adds a blank line and its "Document d — chunk i:" label with its text at the end. |
| AskRoute.PromptFillsSlots | app/api/ask/route.ts:6-35 | When the context holds no "{question}", the prompt is the template with the context and the question in their slots. |
| AskRoute.PromptCapturedByContext | app/api/ask/route.ts:33-35 | A context holding "{question}" captures the substitution. The question lands inside the context at the first such place, and the template's own slot is left in the prompt. |
| AskRoute.Citations | app/api/ask/route.ts:72-76 | There is one citation per retrieved chunk. |
| AskRoute.CitationsSpec | app/api/ask/route.ts:60-76 | Each citation, in order, names its chunk's document and position. Its snippet is the first min(200, length) code units of the chunk's text. |
| AskRoute.Post | app/api/ask/route.ts:45-87 | Status 400 "Question is required" exactly for a missing, falsy or blank question, and then no call is made. The only other error reply is the fixed 500. Any call made starts with retrieval of the question with the limit taken from `k`. |
| AskRoute.PostAnswers | app/api/ask/route.ts:42-79 | After a successful retrieval, the calls are exactly retrieval then generation, with the prompt built from those chunks. On success the reply is 200, the answer is the generated text trimmed, and there is one citation per chunk. A generation failure gives the fixed 500. |
| AskRoute.ProviderErrorsHidden | app/api/ask/route.ts:80-86 | A retrieval failure gives the fixed 500 "Internal server error" after the single retrieval call. The provider's message never reaches the reply. |
| AskRoute.RouteSkipsQuerySchema | app/api/ask/route.ts:47-57 | The route does not apply the question schema: "hi" is rejected by it but still reaches retrieval with k = 5. |
| AskRoute.LimitDefaultsOnlyWhenAbsent | app/api/ask/route.ts:47 | Only an absent `k` becomes 5. A JSON `null` reaches retrieval as `null`, because a destructuring default applies only to `undefined`, and a number is passed on unchanged. |

## Left out

- File reading and the PDF, DOCX and TXT parsers (lib/text-extraction.ts:10-79). These are I/O and third-party libraries; only `cleanText` is modelled.
- The Gemini calls and the client and environment setup. The embedding provider, the retriever and the generator are function parameters. `generateRagAnswer`'s model call is the `generate` parameter.
- lib/rag.ts. Postgres runs the nearest-neighbour ordering and `LIMIT k`, so the route receives retrieval as an oracle. That query ranks by pgvector's L2 operator `<->`, while the HNSW index is declared with `vector_cosine_ops`. Its `vecLiteral` prints vectors like `toDriver` does.
- The staggered `setTimeout` delays in the batch. They are timing only, and `Promise.all` keeps the order.
- Logging (`console.log`/`console.error`). Only the batch's progress lines are returned, as data.
- Embeddings.CosineSimilarity: does not model the floating-point value. Components are integers, and the result is the exact triple (dot product, squared norm, squared norm); the square root and the division are not computed.
- Embeddings.GenerateEmbeddingsBatch: does not model `batchSize <= 0`. With a non-empty input the source loops forever, so the method requires `batchSize >= 1` unless the input is empty. The default of 100 is the caller's.
- VectorColumn.ParseFloat: covers the prefixes a printed vector produces: optional sign, "Infinity", digits, fraction, exponent. Rounding to binary64, overflow and negative zero are not modelled. Mathematical reals stand for numbers.
- VectorColumn.RoundTrip: is stated for integer vectors. The printing of fractional JavaScript numbers is not modelled.
- Database.InsertDocument: serial values consumed by failed inserts are not modelled. Ids are `next` counters advanced on success only.
- Timestamps, the `type_idx`, `document_idx` and `chunk_idx` indexes, the HNSW index, and the drizzle relations. They carry no checkable behaviour beyond the constraints modelled. The `students` table and the session checker are not part of this model.
- Validation.EmailIssuesSpec: the email format is a parameter `isEmail`, not zod's regular expression. Unknown-key stripping and zod's default messages are left out, and the member values of `z.record(z.string(), z.any())` metadata are opaque JSON text.
- AskRoute.PromptFillsSlots and AskRoute.PromptCapturedByContext: are stated for a context and a question without `$`. Otherwise `replace` expands `$&`, `` $` ``, `$'` and `$$`; that expansion is modelled in `JsString.Expand` but has no lemma here.
- JsString.IntToString: prints integers in plain decimal digits. JavaScript switches to exponent form ("1e+21") from 10^21 on, so `VectorColumn.ToDriver`, `VectorColumn.RoundTrip` and `AskRoute.Label` are exact only below that magnitude.
- Embeddings.GenerateEmbeddingsBatch: the provider is a function of the text, so equal texts in one batch get the same outcome. The real API may fail one call and answer another for the same text.
- AskRoute.Post: `k` is absent, `null` or an integer. A fractional number, a string or any other JSON value in `k` reaches the retrieval query unchanged in the source; that case is not modelled.
- Chunking.ChunkText, SemanticChunking.SemanticChunk and Embeddings.GenerateEmbeddingsBatch: `chunkSize`, `chunkOverlap` and `batchSize` are integers. A fractional or NaN option is not modelled: in the source an overlap in (-1, 1) such as 0.5 makes `slice(-0.5)` carry the whole chunk, and a NaN `chunkSize` passes the guard and never closes a chunk. No caller passes such values.
- Characters outside the Basic Multilingual Plane count as one code unit, not a surrogate pair.
- React components, server/checker.action.ts and app/api/status/route.ts are not part of this model. Of scripts/prefill-database.ts only the composition of `cleanText` and `semanticChunk` is stated; its file reading, database writes and logging are left out.

## Findings

| source | as written | input that shows it | evidently intended | confidence | as-written member | corrected member |
|---|---|---|---|---|---|---|
| lib/chunking.ts:134-141 | The last running chunk of every `splitRecursive` level is pushed whole. It never gets the length check and recursion (lines 113-114) that every other running chunk gets. | `semanticChunk("abcd", {chunkSize: 1, chunkOverlap: 0})` returns one 4-character chunk. Any text without "\n\n\n", so every cleaned document, is one chunk. | The last running chunk is split with the finer separators when it is longer than `chunkSize`, like the others. | high; not executed | SemanticChunking.LastPieceNotSplit | SemanticChunking.SemanticChunkIntendedWithinBudget |

## Behaviour of the code

The model follows the code as written, including these behaviours, each shown by a lemma:

- `chunkText` does not count the separator against `chunkSize`, so a chunk can be one separator longer than the budget (`Chunking.ChunkTextOverBudget`).
- With `chunkOverlap` 0, `slice(-0)` carries the whole previous chunk into the next (`Chunking.ZeroOverlapCarriesWholeChunk`).
- `semanticChunk("")` returns one chunk with empty text (`SemanticChunking.SemanticChunkShort`).
- A blank last running chunk is dropped, but a blank chunk closed in the middle of a level is kept with empty text (`SemanticChunking.BlankLongTextHasNoChunk`, `SemanticChunking.BlankPieceBecomesEmptyChunk`).
- `semanticChunk` has no `chunkSize > chunkOverlap` check.
- Chunk offsets of `semanticChunk`'s recursive levels are relative to the piece being split, not to the document. The last piece's offsets count one separator past its end (`SemanticChunking.LastPieceNotSplit`).
