/** app/api/ask/route.ts: the question-answering endpoint. Retrieval
    (lib/rag.ts, a nearest-neighbour query) and answer generation (a hosted
    language model) are parameters; the route's own logic — the guard, the
    default `k`, the context and prompt text, the citations, the trimmed
    answer and the error replies — is modelled exactly. */
module AskRoute {
  import opened Wrappers
  import opened JsString
  import opened Types
  import Validation

  // ---------------------------------------------------------------------
  // The prompt
  // ---------------------------------------------------------------------

  const ContextSlot: string := "{context}"
  const QuestionSlot: string := "{question}"

  /** `RAG_PROMPT` up to its `{context}` slot. */
  const PromptHead: string :=
    "\nYou are a student handbook " + "assistant.\nAnswer user " + "questions based ONLY on the "
    + "provided context.\n\nRules:\n" + "- Be concise (2–3 sentences " + "max).\n- If unsure, say \""
    + "I don't know based on the " + "handbook.\"\n- Do not add extra " + "commentary.\n- Do not include "
    + "citation markers or references " + "in your response.\n\nContext:\n"

  /** Between the two slots. */
  const PromptMiddle: string := "\n\nQuestion:\n"

  /** After the `{question}` slot. */
  const PromptTail: string := "\n\nAnswer:\n"

  const RagPrompt: string := PromptHead + (ContextSlot + (PromptMiddle + (QuestionSlot + PromptTail)))

  lemma HeadLacksBraceFirst()
    ensures Lacks("\nYou are a student handbook " + "assistant.\nAnswer user " + "questions based ONLY on the ", '{')
  {
    assert Lacks("\nYou are a student handbook ", '{');
    assert Lacks("assistant.\nAnswer user ", '{');
    LacksConcat("\nYou are a student handbook ", "assistant.\nAnswer user ", '{');
    assert Lacks("questions based ONLY on the ", '{');
    LacksConcat("\nYou are a student handbook " + "assistant.\nAnswer user ", "questions based ONLY on the ", '{');
  }

  lemma HeadLacksBraceSecond()
    ensures Lacks("provided context.\n\nRules:\n" + "- Be concise (2–3 sentences " + "max).\n- If unsure, say \"", '{')
  {
    assert Lacks("provided context.\n\nRules:\n", '{');
    assert Lacks("- Be concise (2–3 sentences ", '{');
    LacksConcat("provided context.\n\nRules:\n", "- Be concise (2–3 sentences ", '{');
    assert Lacks("max).\n- If unsure, say \"", '{');
    LacksConcat("provided context.\n\nRules:\n" + "- Be concise (2–3 sentences ", "max).\n- If unsure, say \"", '{');
  }

  lemma HeadLacksBraceThird()
    ensures Lacks("I don't know based on the " + "handbook.\"\n- Do not add extra " + "commentary.\n- Do not include ", '{')
  {
    assert Lacks("I don't know based on the ", '{');
    assert Lacks("handbook.\"\n- Do not add extra ", '{');
    LacksConcat("I don't know based on the ", "handbook.\"\n- Do not add extra ", '{');
    assert Lacks("commentary.\n- Do not include ", '{');
    LacksConcat("I don't know based on the " + "handbook.\"\n- Do not add extra ", "commentary.\n- Do not include ", '{');
  }

  lemma HeadLacksBraceLast()
    ensures Lacks("citation markers or references " + "in your response.\n\nContext:\n", '{')
  {
    assert Lacks("citation markers or references ", '{');
    assert Lacks("in your response.\n\nContext:\n", '{');
    LacksConcat("citation markers or references ", "in your response.\n\nContext:\n", '{');
  }

  /** No text of the template before a slot starts a slot. */
  lemma TemplateLacksBrace()
    ensures Lacks(PromptHead, '{') && Lacks(PromptMiddle, '{') && PromptMiddle != [] && Lacks(QuestionSlot, PromptMiddle[0])
  {
    var a := "\nYou are a student handbook " + "assistant.\nAnswer user " + "questions based ONLY on the ";
    var b := "provided context.\n\nRules:\n" + "- Be concise (2–3 sentences " + "max).\n- If unsure, say \"";
    var c := "I don't know based on the " + "handbook.\"\n- Do not add extra " + "commentary.\n- Do not include ";
    var d := "citation markers or references " + "in your response.\n\nContext:\n";
    HeadLacksBraceFirst();
    HeadLacksBraceSecond();
    HeadLacksBraceThird();
    HeadLacksBraceLast();
    LacksConcat(a, b, '{');
    LacksConcat(a + b, c, '{');
    LacksConcat(a + b + c, d, '{');
    assert PromptHead == a + b + c + d;
    assert Lacks(PromptMiddle, '{');
    assert Lacks(QuestionSlot, PromptMiddle[0]);
  }

  /** The fields of a retrieved row that the route passes on. */
  datatype ContextChunk = ContextChunk(id: int, docId: int, chunkIndex: int, text: string)

  function ToContextChunk(c: RetrievedChunk): ContextChunk {
    ContextChunk(c.id, c.documentId, c.index, c.text)
  }

  /** How one chunk appears in the context. */
  function Label(c: ContextChunk): string {
    "Document " + IntToString(c.docId) + " — chunk " + IntToString(c.chunkIndex) + ":\n" + c.text
  }

  function Labels(chunks: seq<ContextChunk>): (r: seq<string>)
    ensures |r| == |chunks| && forall i :: 0 <= i < |chunks| ==> r[i] == Label(chunks[i])
  {
    seq(|chunks|, i requires 0 <= i < |chunks| => Label(chunks[i]))
  }

  /** The `contextText` of `generateRagAnswer`. */
  function RenderContext(chunks: seq<ContextChunk>): string {
    Join(Labels(chunks), "\n\n")
  }

  /** The context lists the chunks in retrieval order: each further chunk
      adds a blank line and its label at the end. */
  lemma RenderContextSnoc(chunks: seq<ContextChunk>, c: ContextChunk)
    ensures chunks == [] ==> RenderContext(chunks + [c]) == Label(c)
    ensures chunks != [] ==> RenderContext(chunks + [c]) == RenderContext(chunks) + "\n\n" + Label(c)
  {
    assert Labels(chunks + [c]) == Labels(chunks) + [Label(c)];
    if chunks != [] {
      JoinSnoc(Labels(chunks), Label(c), "\n\n");
    }
  }

  /** The two `.replace` calls of `generateRagAnswer`. */
  function BuildPrompt(question: string, context: string): string {
    ReplaceFirst(ReplaceFirst(RagPrompt, ContextSlot, context), QuestionSlot, question)
  }

  /** The first replacement on any template of the same layout whose text
      before the context slot holds no `{`. */
  lemma FillContextSlot(head: string, rest: string, context: string)
    requires Lacks(head, '{') && Lacks(context, '$')
    ensures ReplaceFirst(head + (ContextSlot + rest), ContextSlot, context) == head + (context + rest)
  {
    IndexOfAtStart(ContextSlot, rest);
    ReplaceFirstAtStart(ContextSlot, rest, context);
    ReplaceFirstAfterLacking(head, ContextSlot + rest, ContextSlot, context);
  }

  /** The second replacement on the same layout when the context holds no
      `{question}` and the text between the slots holds no `{`. */
  lemma FillQuestionSlot(head: string, context: string, mid: string, tail: string, question: string)
    requires Lacks(head, '{') && Lacks(mid, '{') && mid != [] && Lacks(QuestionSlot, mid[0])
    requires Lacks(question, '$') && IndexOf(context, QuestionSlot).None?
    ensures ReplaceFirst(head + (context + (mid + (QuestionSlot + tail))), QuestionSlot, question)
         == head + (context + (mid + (question + tail)))
  {
    IndexOfAtStart(QuestionSlot, tail);
    ReplaceFirstAtStart(QuestionSlot, tail, question);
    ReplaceFirstAfterLacking(mid, QuestionSlot + tail, QuestionSlot, question);
    ReplaceFirstSkipping(context, mid + (QuestionSlot + tail), QuestionSlot, question);
    ReplaceFirstAfterLacking(head, context + (mid + (QuestionSlot + tail)), QuestionSlot, question);
  }

  /** The second replacement on the same layout when the context holds a
      `{question}`: that copy is the one replaced. */
  lemma CaptureTemplate(head: string, rest: string, context: string, question: string, i: nat)
    requires Lacks(head, '{') && Lacks(question, '$')
    requires IndexOf(context, QuestionSlot) == Some(i)
    ensures ReplaceFirst(head + (context + rest), QuestionSlot, question)
         == head + ((context[..i] + question + context[i + |QuestionSlot|..]) + rest)
  {
    ReplaceFirstAt(context, QuestionSlot, question, i);
    ReplaceFirstInPrefix(context, rest, QuestionSlot, question, i);
    IndexOfInPrefix(context, rest, QuestionSlot);
    ReplaceFirstAfterLacking(head, context + rest, QuestionSlot, question);
  }


  /** Without a `{question}` in the context, the prompt is the template with
      both slots filled. */
  lemma PromptFillsSlots(question: string, context: string)
    requires Lacks(context, '$') && Lacks(question, '$')
    requires IndexOf(context, QuestionSlot).None?
    ensures BuildPrompt(question, context) == PromptHead + (context + (PromptMiddle + (question + PromptTail)))
  {
    TemplateLacksBrace();
    FillContextSlot(PromptHead, PromptMiddle + (QuestionSlot + PromptTail), context);
    FillQuestionSlot(PromptHead, context, PromptMiddle, PromptTail, question);
  }


  /** A context that contains `{question}` captures the substitution: the
      question lands inside the context and the template's own slot is
      left as it is. */
  lemma PromptCapturedByContext(question: string, context: string)
    requires Lacks(context, '$') && Lacks(question, '$')
    requires IndexOf(context, QuestionSlot).Some?
    ensures var i := IndexOf(context, QuestionSlot).value;
      BuildPrompt(question, context) ==
        PromptHead + ((context[..i] + question + context[i + |QuestionSlot|..]) + (PromptMiddle + (QuestionSlot + PromptTail)))
  {
    TemplateLacksBrace();
    var rest := PromptMiddle + (QuestionSlot + PromptTail);
    FillContextSlot(PromptHead, rest, context);
    CaptureTemplate(PromptHead, rest, context, question, IndexOf(context, QuestionSlot).value);
  }


  // ---------------------------------------------------------------------
  // The endpoint
  // ---------------------------------------------------------------------

  /** The `question` field of the parsed body: absent, another falsy value
      (`null`, `0`, `false`), a string, or a truthy non-string. */
  datatype QuestionField = Missing | Falsy | Text(text: string) | OtherTruthy

  /** The `k` field: absent, JSON `null`, or a number. */
  datatype KField = KAbsent | KNull | KNumber(value: int)

  /** The request body: `Unparseable` is a body that is not JSON, or the
      JSON `null`, which destructuring cannot read (both throw, giving the
      500 reply); `Body` is any other JSON value, with the two fields the
      route reads (absent on a value that is not an object). */
  datatype AskBody = Unparseable | Body(question: QuestionField, k: KField)

  /** The external calls the route makes, in order; a `None` limit stands
      for `null`. */
  datatype Call = Retrieve(question: string, k: Option<int>) | Generate(prompt: string)

  datatype ReplyBody = ErrorBody(error: string) | AnswerBody(response: LLMResponse)

  datatype Reply = Reply(status: int, body: ReplyBody)

  type Retriever = (string, Option<int>) -> Result<seq<RetrievedChunk>, string>
  type Generator = string -> Result<string, string>

  const DefaultK := 5

  /** The limit handed to retrieval. The destructuring default `k = 5`
      applies only when the field is absent; `null` is passed on. */
  function Limit(k: KField): Option<int> {
    match k
    case KAbsent => Some(DefaultK)
    case KNull => None
    case KNumber(n) => Some(n)
  }
  const SnippetLength := 200

  const QuestionRequired := Reply(400, ErrorBody("Question is required"))
  const InternalError := Reply(500, ErrorBody("Internal server error"))

  /** `citations`: one per retrieved chunk, in order. */
  function Citations(chunks: seq<ContextChunk>): (r: seq<Citation>)
    ensures |r| == |chunks|
  {
    seq(|chunks|, i requires 0 <= i < |chunks| => Citation(chunks[i].docId, chunks[i].chunkIndex, Slice(chunks[i].text, 0, SnippetLength)))
  }

  /** Each citation names its chunk's document and position, and quotes the
      first 200 code units of its text (all of it when shorter). */
  lemma CitationsSpec(chunks: seq<ContextChunk>, i: nat)
    requires i < |chunks|
    ensures Citations(chunks)[i].documentId == chunks[i].docId
    ensures Citations(chunks)[i].chunkIndex == chunks[i].chunkIndex
    ensures StartsWith(chunks[i].text, Citations(chunks)[i].snippet)
    ensures |Citations(chunks)[i].snippet| == if |chunks[i].text| < SnippetLength then |chunks[i].text| else SnippetLength
  {
    SlicePrefix(chunks[i].text, SnippetLength);
  }

  /** The guard of `POST`: the question is absent, falsy or blank. */
  predicate QuestionMissing(q: QuestionField) {
    q.Missing? || q.Falsy? || (q.Text? && Trim(q.text) == [])
  }

  /** `POST /api/ask`: the reply and the external calls made on the way. */
  function Post(body: AskBody, retrieve: Retriever, generate: Generator): (r: (Reply, seq<Call>))
    ensures body.Body? && QuestionMissing(body.question) ==> r == (QuestionRequired, [])
    ensures r.0.status == 400 <==> body.Body? && QuestionMissing(body.question)
    ensures r.0.status != 200 ==> r.0 == QuestionRequired || r.0 == InternalError
    ensures r.1 != [] ==> body.Body? && body.question.Text? && r.1[0] == Retrieve(body.question.text, Limit(body.k))
    ensures |r.1| <= 2
  {
    match body
    case Unparseable => (InternalError, [])
    case Body(question, k) =>
      if QuestionMissing(question) then (QuestionRequired, [])
      else if question.OtherTruthy? then (InternalError, [])
      else
        var q := question.text;
        var limit := Limit(k);
        var retrieval := Retrieve(q, limit);
        match retrieve(q, limit)
        case Failure(_) => (InternalError, [retrieval])
        case Success(rows) =>
          var chunks := seq(|rows|, i requires 0 <= i < |rows| => ToContextChunk(rows[i]));
          var prompt := BuildPrompt(q, RenderContext(chunks));
          match generate(prompt)
          case Failure(_) => (InternalError, [retrieval, Generate(prompt)])
          case Success(text) =>
            (Reply(200, AnswerBody(LLMResponse(Trim(text), Some(Citations(chunks))))), [retrieval, Generate(prompt)])
  }

  /** A successful reply: the retrieval asked for `k` (5 when absent)
      chunks for the question, the prompt held their context, the answer is
      the generated text trimmed, and there is one citation per chunk. */
  lemma PostAnswers(body: AskBody, retrieve: Retriever, generate: Generator)
    requires body.Body? && body.question.Text? && !QuestionMissing(body.question)
    requires retrieve(body.question.text, Limit(body.k)).Success?
    ensures var rows := retrieve(body.question.text, Limit(body.k)).value;
      var chunks := seq(|rows|, i requires 0 <= i < |rows| => ToContextChunk(rows[i]));
      var prompt := BuildPrompt(body.question.text, RenderContext(chunks));
      && Post(body, retrieve, generate).1 == [Retrieve(body.question.text, Limit(body.k)), Generate(prompt)]
      && (generate(prompt).Success? ==>
            && Post(body, retrieve, generate).0.status == 200
            && Post(body, retrieve, generate).0.body.response.answer == Trim(generate(prompt).value)
            && IsTrimmed(Post(body, retrieve, generate).0.body.response.answer)
            && Post(body, retrieve, generate).0.body.response.citations == Some(Citations(chunks))
            && |Post(body, retrieve, generate).0.body.response.citations.value| == |rows|)
      && (generate(prompt).Failure? ==> Post(body, retrieve, generate).0 == InternalError)
  {
    var rows := retrieve(body.question.text, Limit(body.k)).value;
    var chunks := seq(|rows|, i requires 0 <= i < |rows| => ToContextChunk(rows[i]));
    var prompt := BuildPrompt(body.question.text, RenderContext(chunks));
    if generate(prompt).Success? {
      TrimShape(generate(prompt).value);
    }
  }

  /** Whatever the retriever or generator reports, the client sees only the
      fixed 500 reply: provider text never reaches the response. */
  lemma ProviderErrorsHidden(body: AskBody, retrieve: Retriever, generate: Generator)
    requires body.Body? && body.question.Text? && !QuestionMissing(body.question)
    requires retrieve(body.question.text, Limit(body.k)).Failure?
    ensures Post(body, retrieve, generate) == (InternalError, [Retrieve(body.question.text, Limit(body.k))])
  {
  }

  /** The route does not apply `userQuerySchema`: a two-character question
      that the schema rejects reaches retrieval. */
  lemma RouteSkipsQuerySchema(retrieve: Retriever, generate: Generator)
    ensures Validation.UserQueryIssues(Validation.UserQuery("hi", None, None)) != []
    ensures Post(Body(Text("hi"), KAbsent), retrieve, generate).1[0] == Retrieve("hi", Some(5))
  {
    assert Trim("hi") == "hi";
  }

  /** Only an absent `k` takes the default of five; an explicit `null`
      reaches retrieval as `null`, and a number is passed on unchanged. */
  lemma LimitDefaultsOnlyWhenAbsent(question: string, k: KField, retrieve: Retriever, generate: Generator)
    requires Trim(question) != []
    ensures Post(Body(Text(question), k), retrieve, generate).1[0].k.Some?
      <==> !k.KNull?
    ensures k.KAbsent? ==> Post(Body(Text(question), k), retrieve, generate).1[0].k == Some(DefaultK)
    ensures k.KNumber? ==> Post(Body(Text(question), k), retrieve, generate).1[0].k == Some(k.value)
  {
  }
}
