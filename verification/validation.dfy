/** The zod schemas of lib/validation.ts as checks that list the problems
    they find, each paired with an independent statement of what the schema
    accepts. JavaScript numbers are reals (finite ones: `z.number()` rejects
    `NaN`); unknown keys, which zod strips, are not represented. */
module Validation {
  import opened Wrappers
  import opened JsString
  import opened Types
  import VectorColumn

  /** Where a problem is: object keys and array positions from the root. */
  datatype PathItem = Key(name: string) | Index(position: nat)

  /** What went wrong. `Custom` carries the message the schema spells out;
      the other kinds are zod's built-in checks, whose wording the schemas
      leave to the library. */
  datatype IssueKind =
    | Custom(message: string)
    | TooSmall(minimum: int)
    | TooBig(maximum: int)
    | NotInteger
    | NotPositive
    | InvalidEnum(options: seq<string>)
    | InvalidType(expected: string)

  datatype Issue = Issue(path: seq<PathItem>, kind: IssueKind)

  /** One field's problems, in the order its checks are declared. */
  function When(failed: bool, path: seq<PathItem>, kind: IssueKind): (r: seq<Issue>)
    ensures |r| <= 1 && (r == [] <==> !failed)
  {
    if failed then [Issue(path, kind)] else []
  }

  predicate IsInteger(x: real) {
    x == x.Floor as real
  }

  /** Issues of `z.number().int().positive()`. */
  function PositiveIntIssues(x: real, path: seq<PathItem>): (r: seq<Issue>)
    ensures r == [] <==> IsInteger(x) && x > 0.0
  {
    When(!IsInteger(x), path, NotInteger) + When(x <= 0.0, path, NotPositive)
  }

  // ---------------------------------------------------------------------
  // emailSchema
  // ---------------------------------------------------------------------

  datatype EmailInput = EmailInput(email: string)

  const EmailSuffix := "usc.edu.ph"

  /** `emailSchema`. `isEmail` is zod's address-format check, left opaque. */
  function EmailIssues(isEmail: string -> bool, input: EmailInput): seq<Issue> {
    var path := [Key("email")];
    When(!isEmail(input.email), path, Custom("Invalid email address"))
      + When(!EndsWith(input.email, EmailSuffix), path, Custom("Email must be a valid usc.edu address"))
  }

  predicate EmailAccepted(isEmail: string -> bool, input: EmailInput) {
    isEmail(input.email) && |input.email| >= |EmailSuffix| && input.email[|input.email| - 10..] == EmailSuffix
  }

  lemma EmailIssuesSpec(isEmail: string -> bool, input: EmailInput)
    ensures EmailIssues(isEmail, input) == [] <==> EmailAccepted(isEmail, input)
    ensures !isEmail(input.email) ==> Issue([Key("email")], Custom("Invalid email address")) in EmailIssues(isEmail, input)
  {
  }

  /** The suffix test is on characters, not on the domain: an address at
      `notusc.edu.ph` passes it. */
  lemma EmailSuffixIsNotDomain(isEmail: string -> bool)
    requires isEmail("a@notusc.edu.ph")
    ensures EmailIssues(isEmail, EmailInput("a@notusc.edu.ph")) == []
  {
    assert "a@notusc.edu.ph"[5..] == EmailSuffix;
  }

  // ---------------------------------------------------------------------
  // documentSchema
  // ---------------------------------------------------------------------

  const DocumentTypes: seq<string> := ["handbook", "rulebook", "policy", "guide", "other"]

  datatype DocumentInput = DocumentInput(title: string, docType: string, version: Option<string>, metadata: Option<JsonValue>)

  /** `documentSchema`. `version` is optional and, being typed, well formed
      here; `metadata` is optional, and a record of any values when given,
      so only a JSON object passes. */
  function DocumentIssues(input: DocumentInput): seq<Issue> {
    When(|input.title| < 1, [Key("title")], Custom("Title is required"))
      + When(input.docType !in DocumentTypes, [Key("type")], InvalidEnum(DocumentTypes))
      + When(input.metadata.Some? && !input.metadata.value.JsonObject?, [Key("metadata")], InvalidType("object"))
  }

  predicate DocumentAccepted(input: DocumentInput) {
    && input.title != []
    && (input.docType == "handbook" || input.docType == "rulebook" || input.docType == "policy"
        || input.docType == "guide" || input.docType == "other")
    && (input.metadata.None? || input.metadata.value.JsonObject?)
  }

  lemma DocumentIssuesSpec(input: DocumentInput)
    ensures DocumentIssues(input) == [] <==> DocumentAccepted(input)
    ensures input.metadata.Some? && input.metadata.value.JsonOther? ==>
              Issue([Key("metadata")], InvalidType("object")) in DocumentIssues(input)
  {
  }

  // ---------------------------------------------------------------------
  // chunkSchema
  // ---------------------------------------------------------------------

  datatype ChunkMetadata = ChunkMetadata(page: Option<real>, section: Option<string>, subsection: Option<string>)

  datatype ChunkInput = ChunkInput(documentId: real, chunkText: string, chunkIndex: real, metadata: Option<ChunkMetadata>)

  const MinChunkText := 10

  /** `chunkSchema`. */
  function ChunkIssues(input: ChunkInput): seq<Issue> {
    PositiveIntIssues(input.documentId, [Key("documentId")])
      + When(|input.chunkText| < MinChunkText, [Key("chunkText")], Custom("Chunk text too short"))
      + When(!IsInteger(input.chunkIndex), [Key("chunkIndex")], NotInteger)
      + When(input.chunkIndex < 0.0, [Key("chunkIndex")], TooSmall(0))
  }

  predicate ChunkAccepted(input: ChunkInput) {
    && input.documentId.Floor as real == input.documentId && input.documentId.Floor >= 1
    && |input.chunkText| >= 10
    && input.chunkIndex.Floor as real == input.chunkIndex && input.chunkIndex.Floor >= 0
  }

  lemma ChunkIssuesSpec(input: ChunkInput)
    ensures ChunkIssues(input) == [] <==> ChunkAccepted(input)
  {
  }

  // ---------------------------------------------------------------------
  // embeddingSchema
  // ---------------------------------------------------------------------

  datatype EmbeddingInput = EmbeddingInput(chunkId: real, embedding: seq<real>)

  /** `embeddingSchema`: both array bounds are 768, so both can fail only
      one at a time. */
  function EmbeddingIssues(input: EmbeddingInput): seq<Issue> {
    PositiveIntIssues(input.chunkId, [Key("chunkId")])
      + When(|input.embedding| < 768, [Key("embedding")], TooSmall(768))
      + When(|input.embedding| > 768, [Key("embedding")], TooBig(768))
  }

  predicate EmbeddingAccepted(input: EmbeddingInput) {
    input.chunkId.Floor as real == input.chunkId && input.chunkId.Floor >= 1 && |input.embedding| == 768
  }

  /** The schema accepts exactly the inputs whose vector fits the
      `vector(768)` column, with a positive integer chunk id. */
  lemma EmbeddingIssuesSpec(input: EmbeddingInput)
    ensures EmbeddingIssues(input) == [] <==> EmbeddingAccepted(input)
    ensures EmbeddingAccepted(input) ==> |input.embedding| == VectorColumn.Dimension
    ensures |EmbeddingIssues(input)| <= 3
  {
  }

  // ---------------------------------------------------------------------
  // userQuerySchema
  // ---------------------------------------------------------------------

  const Roles: seq<string> := ["user", "assistant"]

  datatype HistoryEntry = HistoryEntry(role: string, content: string)

  datatype Filters = Filters(documentTypes: Option<seq<string>>, version: Option<string>)

  datatype UserQuery = UserQuery(question: string, conversationHistory: Option<seq<HistoryEntry>>, filters: Option<Filters>)

  /** Role problems of the history entries from `from` on. */
  function RoleIssues(history: seq<HistoryEntry>, from: nat): seq<Issue>
    requires from <= |history|
    decreases |history| - from
  {
    if from == |history| then []
    else
      When(history[from].role !in Roles, [Key("conversationHistory"), Index(from), Key("role")], InvalidEnum(Roles))
        + RoleIssues(history, from + 1)
  }

  lemma {:induction false} RoleIssuesSpec(history: seq<HistoryEntry>, from: nat)
    requires from <= |history|
    ensures RoleIssues(history, from) == [] <==> forall i :: from <= i < |history| ==> history[i].role in Roles
    decreases |history| - from
  {
    if from < |history| {
      RoleIssuesSpec(history, from + 1);
      var head := When(history[from].role !in Roles, [Key("conversationHistory"), Index(from), Key("role")], InvalidEnum(Roles));
      assert RoleIssues(history, from) == head + RoleIssues(history, from + 1);
    }
  }

  /** `userQuerySchema`. */
  function UserQueryIssues(q: UserQuery): seq<Issue> {
    When(|q.question| < 3, [Key("question")], Custom("Question too short"))
      + When(|q.question| > 500, [Key("question")], Custom("Question too long"))
      + (if q.conversationHistory.Some? then RoleIssues(q.conversationHistory.value, 0) else [])
  }

  predicate UserQueryAccepted(q: UserQuery) {
    && 3 <= |q.question| <= 500
    && (q.conversationHistory.Some? ==>
          forall i :: 0 <= i < |q.conversationHistory.value| ==>
            q.conversationHistory.value[i].role == "user" || q.conversationHistory.value[i].role == "assistant")
  }

  lemma UserQueryIssuesSpec(q: UserQuery)
    ensures UserQueryIssues(q) == [] <==> UserQueryAccepted(q)
  {
    if q.conversationHistory.Some? {
      var h := q.conversationHistory.value;
      RoleIssuesSpec(h, 0);
      forall i | 0 <= i < |h| ensures h[i].role in Roles <==> h[i].role == "user" || h[i].role == "assistant" {
        RolesMembers(h[i].role);
      }
    }
  }

  lemma RolesMembers(r: string)
    ensures r in Roles <==> r == "user" || r == "assistant"
  {
  }

  // ---------------------------------------------------------------------
  // llmResponseSchema
  // ---------------------------------------------------------------------

  const Confidences: seq<string> := ["high", "medium", "low"]

  datatype SourceMetadata = SourceMetadata(page: Option<real>, section: Option<string>)

  datatype Source = Source(
    documentId: real,
    documentTitle: string,
    chunkId: real,
    chunkText: string,
    relevanceScore: real,
    metadata: Option<SourceMetadata>)

  datatype LLMResponseInput = LLMResponseInput(answer: string, sources: seq<Source>, confidence: string)

  lemma ConcatEmpty<T>(a: seq<T>, b: seq<T>)
    ensures a + b == [] <==> a == [] && b == []
  {
    if a + b == [] {
      assert |a + b| == |a| + |b|;
    }
  }

  /** Relevance-score problems of the sources from `from` on. */
  function ScoreIssues(sources: seq<Source>, from: nat): seq<Issue>
    requires from <= |sources|
    decreases |sources| - from
  {
    if from == |sources| then []
    else
      var path := [Key("sources"), Index(from), Key("relevanceScore")];
      When(sources[from].relevanceScore < 0.0, path, TooSmall(0))
        + When(sources[from].relevanceScore > 1.0, path, TooBig(1))
        + ScoreIssues(sources, from + 1)
  }

  lemma {:induction false} ScoreIssuesSpec(sources: seq<Source>, from: nat)
    requires from <= |sources|
    ensures ScoreIssues(sources, from) == [] <==>
      forall i :: from <= i < |sources| ==> 0.0 <= sources[i].relevanceScore <= 1.0
    decreases |sources| - from
  {
    if from < |sources| {
      ScoreIssuesSpec(sources, from + 1);
      var path := [Key("sources"), Index(from), Key("relevanceScore")];
      var head := When(sources[from].relevanceScore < 0.0, path, TooSmall(0))
        + When(sources[from].relevanceScore > 1.0, path, TooBig(1));
      assert head == [] <==> 0.0 <= sources[from].relevanceScore <= 1.0;
      assert ScoreIssues(sources, from) == head + ScoreIssues(sources, from + 1);
      ConcatEmpty(head, ScoreIssues(sources, from + 1));
      assert (forall i :: from <= i < |sources| ==> 0.0 <= sources[i].relevanceScore <= 1.0) <==>
        0.0 <= sources[from].relevanceScore <= 1.0 && forall i :: from + 1 <= i < |sources| ==> 0.0 <= sources[i].relevanceScore <= 1.0;
    }
  }

  /** `llmResponseSchema`. */
  function LLMResponseIssues(r: LLMResponseInput): seq<Issue> {
    When(|r.answer| < 1, [Key("answer")], Custom("Answer cannot be empty"))
      + ScoreIssues(r.sources, 0)
      + When(r.confidence !in Confidences, [Key("confidence")], InvalidEnum(Confidences))
  }

  predicate LLMResponseAccepted(r: LLMResponseInput) {
    && r.answer != []
    && (forall i :: 0 <= i < |r.sources| ==> 0.0 <= r.sources[i].relevanceScore <= 1.0)
    && (r.confidence == "high" || r.confidence == "medium" || r.confidence == "low")
  }

  lemma LLMResponseIssuesSpec(r: LLMResponseInput)
    ensures LLMResponseIssues(r) == [] <==> LLMResponseAccepted(r)
  {
    ScoreIssuesSpec(r.sources, 0);
    var a := When(|r.answer| < 1, [Key("answer")], Custom("Answer cannot be empty"));
    var c := When(r.confidence !in Confidences, [Key("confidence")], InvalidEnum(Confidences));
    ConcatEmpty(a, ScoreIssues(r.sources, 0));
    ConcatEmpty(a + ScoreIssues(r.sources, 0), c);
    assert r.confidence in Confidences <==> r.confidence == "high" || r.confidence == "medium" || r.confidence == "low";
  }
}
