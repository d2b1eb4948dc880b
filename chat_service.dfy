/**
 * server/services/chatService.js: `generateChatResponse`. The system prompt
 * starts as a fixed preamble and, for a chat bound to a PDF, grows by one of
 * three context sections: the three chunks most similar to the latest
 * message with page citations (retrieval), the first 2000 characters of the
 * text when retrieval fails, or the same characters with a usage hint when
 * the PDF has no embeddings or no OpenAI key is configured. The prompt and
 * the history go to the language model, whose reply or error is returned.
 */
module ChatService {
  import opened Wrappers
  import opened Text
  import opened Models
  import opened EmbeddingService
  import Ranking

  /** The system prompt every conversation starts from. */
  const Preamble: string :=
    "You are a helpful AI teaching assistant. You help students understand their study materials, answer questions clearly, and provide educational explanations."

  /** The heading of the retrieved snippets. */
  const ContextHeader: string := "\n\nRelevant information from the PDF:\n\n"

  /** The instruction appended after the retrieved snippets. */
  const CitationInstruction: string :=
    "\n\nIMPORTANT: Cite page numbers when answering. Format: \"According to page X: [quote]\""

  /** The hint appended after the plain-text context. */
  const UseContextHint: string := "\n\nUse this context when relevant."

  /** Characters of the PDF text used by the two plain-text sections. */
  const PlainContextLimit: nat := 2000

  /** Characters of a chunk quoted in its snippet. */
  const SnippetLimit: nat := 200

  /** How many chunks retrieval keeps. */
  const RetrievedChunks: nat := 3

  /** The prefix of every error `generateChatResponse` throws. */
  const ResponseErrorPrefix: string := "Failed to generate response: "

  /** What the service reads from its surroundings: whether `OPENAI_API_KEY` is set, the
      embedding provider, the similarity score (`cosineSimilarity`, uninterpreted), and
      whether the retrieval block throws. */
  datatype ChatEnv = ChatEnv(
    openAiKeySet: bool,
    provider: string -> ProviderReply,
    similarity: (seq<real>, seq<real>) -> real,
    retrievalThrows: bool)

  /** `messages[messages.length - 1]?.content || ""`. */
  function LastContent(messages: seq<Message>): string
  {
    if |messages| == 0 then "" else messages[|messages| - 1].content
  }

  /** Which context section the prompt gets. */
  datatype ContextMode = NoContext | Retrieval | RetrievalFailed | PlainText

  /** The branch `generateChatResponse` takes. Only the first chunk's embedding is looked at. */
  function Mode(messages: seq<Message>, pdfId: Option<string>, pdfs: PdfStore, env: ChatEnv): (m: ContextMode)
    ensures m != NoContext <==>
      Truthy(pdfId) && pdfId.value in pdfs && |pdfs[pdfId.value].chunks| > 0 && LastContent(messages) != ""
    ensures (m == Retrieval || m == RetrievalFailed) <==>
      m != NoContext && |pdfs[pdfId.value].chunks[0].embedding| > 0 && env.openAiKeySet
    ensures m == RetrievalFailed ==> env.retrievalThrows
    ensures m == Retrieval ==> !env.retrievalThrows
  {
    if !Truthy(pdfId) || pdfId.value !in pdfs then NoContext
    else
      var pdf := pdfs[pdfId.value];
      if |pdf.chunks| == 0 || LastContent(messages) == "" then NoContext
      else if |pdf.chunks[0].embedding| > 0 && env.openAiKeySet then
        if env.retrievalThrows then RetrievalFailed else Retrieval
      else PlainText
  }

  /** The similarity of every chunk to the query embedding. */
  function Scores(chunks: seq<Chunk>, query: seq<real>, similarity: (seq<real>, seq<real>) -> real): (keys: seq<real>)
    ensures |keys| == |chunks|
    ensures forall k :: 0 <= k < |chunks| ==> keys[k] == similarity(query, chunks[k].embedding)
  {
    seq(|chunks|, k requires 0 <= k < |chunks| => similarity(query, chunks[k].embedding))
  }

  /** Positions of the retrieved chunks: `sort((a, b) => b.similarity - a.similarity).slice(0, 3)`. */
  function TopPositions(chunks: seq<Chunk>, query: seq<real>, similarity: (seq<real>, seq<real>) -> real): (top: seq<nat>)
    ensures |top| == Min(|chunks|, RetrievedChunks)
    ensures forall k :: 0 <= k < |top| ==> top[k] < |chunks|
    ensures Ranking.Ranked(Scores(chunks, query, similarity), top)
  {
    var top := Ranking.Top(Scores(chunks, query, similarity), RetrievedChunks);
    assert Ranking.InRange(Scores(chunks, query, similarity), top);
    top
  }

  /** The retrieved chunks, most similar first. */
  function TopChunks(chunks: seq<Chunk>, query: seq<real>, similarity: (seq<real>, seq<real>) -> real): (r: seq<Chunk>)
    ensures |r| == Min(|chunks|, RetrievedChunks)
  {
    var top := TopPositions(chunks, query, similarity);
    seq(|top|, k requires 0 <= k < |top| => chunks[top[k]])
  }

  /** The retrieved chunks are chunks of the PDF, in non-increasing similarity, and none of
      the chunks left out is more similar than any of them. */
  lemma TopChunksRanked(chunks: seq<Chunk>, query: seq<real>, similarity: (seq<real>, seq<real>) -> real)
    ensures var r := TopChunks(chunks, query, similarity);
      (forall k :: 0 <= k < |r| ==> r[k] in chunks)
      && (forall a, b :: 0 <= a < b < |r| ==>
            similarity(query, r[a].embedding) >= similarity(query, r[b].embedding))
      && (forall k, j :: 0 <= k < |r| && 0 <= j < |chunks| && j !in TopPositions(chunks, query, similarity) ==>
            similarity(query, r[k].embedding) >= similarity(query, chunks[j].embedding))
  {
    var r := TopChunks(chunks, query, similarity);
    var keys := Scores(chunks, query, similarity);
    var top := TopPositions(chunks, query, similarity);
    forall a, b | 0 <= a < b < |r|
      ensures similarity(query, r[a].embedding) >= similarity(query, r[b].embedding)
    {
      assert Ranking.Before(keys, top[a], top[b]);
    }
    forall k, j | 0 <= k < |r| && 0 <= j < |chunks| && j !in top
      ensures similarity(query, r[k].embedding) >= similarity(query, chunks[j].embedding)
    {
      assert top[k] in top;
      Ranking.TopBeatsRest(keys, RetrievedChunks, top[k], j);
    }
  }

  /** The pieces of a snippet around the page number and the quote. */
  const SourceOpen: string := "[Source: Page "
  const SourceClose: string := "]\n\""
  const QuoteClose: string := "...\"\n\n"

  /** One cited snippet: the page number, then the first 200 characters of the chunk in
      quotes followed by an ellipsis. */
  function Snippet(c: Chunk): string
  {
    SourceOpen + IntToString(c.pageNumber) + SourceClose + Prefix(c.text, SnippetLimit) + QuoteClose
  }

  /** A snippet of a chunk on a page `p >= 0` spells out `p` in decimal and quotes a prefix
      of exactly `min(n, 200)` characters of the chunk's text of length n. */
  lemma SnippetCites(c: Chunk) returns (page: string, quote: string)
    requires c.pageNumber >= 0
    ensures Snippet(c) == SourceOpen + page + SourceClose + quote + QuoteClose
    ensures (forall i :: 0 <= i < |page| ==> '0' <= page[i] <= '9') && DigitsValue(page) == c.pageNumber
    ensures quote <= c.text && |quote| <= SnippetLimit
    ensures |quote| == Min(|c.text|, SnippetLimit)
    ensures |c.text| <= SnippetLimit ==> quote == c.text
  {
    page, quote := NatToString(c.pageNumber), Prefix(c.text, SnippetLimit);
    NatToStringRoundTrip(c.pageNumber);
  }

  /** The pieces `f` renders for several chunks, one after the other. */
  function Render(chunks: seq<Chunk>, f: Chunk -> string): string
  {
    if chunks == [] then "" else Render(chunks[..|chunks| - 1], f) + f(chunks[|chunks| - 1])
  }

  /** Rendering works chunk by chunk: the rendering of two lists is that of each. */
  lemma {:induction false} RenderAppend(a: seq<Chunk>, b: seq<Chunk>, f: Chunk -> string)
    ensures Render(a + b, f) == Render(a, f) + Render(b, f)
    decreases |b|
  {
    if b == [] {
      assert a + b == a;
    } else {
      var ab := a + b;
      assert ab[..|ab| - 1] == a + b[..|b| - 1];
      assert ab[|ab| - 1] == b[|b| - 1];
      RenderAppend(a, b[..|b| - 1], f);
      var x, y, z := Render(a, f), Render(b[..|b| - 1], f), f(b[|b| - 1]);
      assert Render(ab, f) == (x + y) + z;
      assert Render(b, f) == y + z;
      assert (x + y) + z == x + (y + z);
    }
  }

  /** The snippets of several chunks, one after the other. */
  function Snippets(chunks: seq<Chunk>): string
  {
    Render(chunks, Snippet)
  }

  /** Each step of the `forEach` loop extends the rendering by one piece. */
  lemma RenderStep(chunks: seq<Chunk>, i: nat, f: Chunk -> string)
    requires i < |chunks|
    ensures Render(chunks[..i + 1], f) == Render(chunks[..i], f) + f(chunks[i])
  {
    assert chunks[..i + 1][..i] == chunks[..i];
  }

  /** `contextInfo` built by the `forEach` loop over the retrieved chunks. */
  method RenderContext(chunks: seq<Chunk>) returns (contextInfo: string)
    ensures contextInfo == ContextHeader + Snippets(chunks)
  {
    contextInfo := ContextHeader;
    for i := 0 to |chunks|
      invariant contextInfo == ContextHeader + Render(chunks[..i], Snippet)
    {
      RenderStep(chunks, i, Snippet);
      ghost var done := Render(chunks[..i], Snippet);
      var snippet := Snippet(chunks[i]);
      AppendAssoc(ContextHeader, done, snippet);
      contextInfo := contextInfo + snippet;
    }
    assert chunks[..|chunks|] == chunks;
  }

  /** "\n\nContext from <name>:" */
  function ContextFrom(pdf: Pdf): string
  {
    "\n\nContext from " + pdf.originalName + ":"
  }

  /** The retrieved context: the heading, then the snippets of the top chunks. */
  function RetrievedContext(pdf: Pdf, lastMessage: string, env: ChatEnv): string
  {
    var query := CreateEmbedding(lastMessage, env.provider);
    ContextHeader + Snippets(TopChunks(pdf.chunks, query, env.similarity))
  }

  /** The section the retrieval branch appends before the citation instruction. */
  function RetrievalSection(pdf: Pdf, lastMessage: string, env: ChatEnv): string
  {
    ContextFrom(pdf) + RetrievedContext(pdf, lastMessage, env)
  }

  /** The section the failed-retrieval fallback appends: the text, without the hint. */
  function FallbackSection(pdf: Pdf): string
  {
    ContextFrom(pdf) + "\n" + Prefix(pdf.textContent, PlainContextLimit)
  }

  /** The section of the no-embeddings branch: the same text, then the hint. */
  function PlainSection(pdf: Pdf): string
  {
    FallbackSection(pdf) + UseContextHint
  }

  /** The system prompt the branches produce. */
  function SystemPrompt(messages: seq<Message>, pdfId: Option<string>, pdfs: PdfStore, env: ChatEnv): (p: string)
    ensures Preamble <= p
  {
    match Mode(messages, pdfId, pdfs, env)
    case NoContext => Preamble
    case Retrieval => Preamble + RetrievalSection(pdfs[pdfId.value], LastContent(messages), env) + CitationInstruction
    case RetrievalFailed => Preamble + FallbackSection(pdfs[pdfId.value])
    case PlainText => Preamble + PlainSection(pdfs[pdfId.value])
  }

  /** The prompt assembly of `generateChatResponse`: `systemPrompt` starts as the preamble
      and grows by `+=` along the branch taken. */
  method BuildSystemPrompt(messages: seq<Message>, pdfId: Option<string>, pdfs: PdfStore, env: ChatEnv)
    returns (systemPrompt: string)
    ensures systemPrompt == SystemPrompt(messages, pdfId, pdfs, env)
  {
    systemPrompt := Preamble;
    if Truthy(pdfId) {
      if pdfId.value in pdfs {
        var pdf := pdfs[pdfId.value];
        if |pdf.chunks| > 0 {
          var lastUserMessage := LastContent(messages);
          if lastUserMessage != "" {
            var hasEmbeddings := |pdf.chunks[0].embedding| > 0;
            if hasEmbeddings && env.openAiKeySet {
              if !env.retrievalThrows {
                var queryEmbedding := CreateEmbedding(lastUserMessage, env.provider);
                var topChunks := TopChunks(pdf.chunks, queryEmbedding, env.similarity);
                var contextInfo := RenderContext(topChunks);
                systemPrompt := systemPrompt + (ContextFrom(pdf) + contextInfo);
                systemPrompt := systemPrompt + CitationInstruction;
              } else {
                var contextText := Prefix(pdf.textContent, PlainContextLimit);
                systemPrompt := systemPrompt + (ContextFrom(pdf) + "\n" + contextText);
              }
            } else {
              var contextText := Prefix(pdf.textContent, PlainContextLimit);
              systemPrompt := systemPrompt + (ContextFrom(pdf) + "\n" + contextText + UseContextHint);
            }
          }
        }
      }
    }
  }

  /** Without a usable PDF context (no `pdfId`, an unknown PDF, no chunks, or an empty
      latest message) the prompt is exactly the preamble: no text is added. */
  lemma BarePromptWithoutContext(messages: seq<Message>, pdfId: Option<string>, pdfs: PdfStore, env: ChatEnv)
    requires !Truthy(pdfId) || pdfId.value !in pdfs || |pdfs[pdfId.value].chunks| == 0 || LastContent(messages) == ""
    ensures SystemPrompt(messages, pdfId, pdfs, env) == Preamble
  {
  }

  /** The prompt changes only through the first chunk's embedding, never the others'. */
  lemma OnlyFirstEmbeddingDecides(messages: seq<Message>, id: string, pdfs: PdfStore, env: ChatEnv, chunks: seq<Chunk>)
    requires id in pdfs && |pdfs[id].chunks| > 0 && |chunks| > 0
    requires chunks[0] == pdfs[id].chunks[0]
    ensures Mode(messages, Some(id), pdfs, env) == Mode(messages, Some(id), pdfs[id := pdfs[id].(chunks := chunks)], env)
  {
  }

  /** The two fallbacks differ exactly by the usage hint: a failed retrieval gives the plain
      prompt without "Use this context when relevant.". */
  lemma FallbacksDifferByHint(messages: seq<Message>, id: string, pdfs: PdfStore, env: ChatEnv)
    requires Mode(messages, Some(id), pdfs, env) == RetrievalFailed
    ensures Mode(messages, Some(id), pdfs, env.(openAiKeySet := false)) == PlainText
    ensures SystemPrompt(messages, Some(id), pdfs, env.(openAiKeySet := false))
      == SystemPrompt(messages, Some(id), pdfs, env) + UseContextHint
  {
    assert Preamble + (FallbackSection(pdfs[id]) + UseContextHint) == (Preamble + FallbackSection(pdfs[id])) + UseContextHint;
  }

  /** A retrieved prompt quotes at most 3 chunks, each by at most 200 characters, and ends
      with the citation instruction. */
  lemma RetrievedPromptShape(messages: seq<Message>, pdfId: Option<string>, pdfs: PdfStore, env: ChatEnv)
    requires Mode(messages, pdfId, pdfs, env) == Retrieval
    ensures var pdf := pdfs[pdfId.value];
      var top := TopChunks(pdf.chunks, CreateEmbedding(LastContent(messages), env.provider), env.similarity);
      |top| <= RetrievedChunks
      && SystemPrompt(messages, pdfId, pdfs, env)
         == Preamble + ContextFrom(pdf) + (ContextHeader + Snippets(top)) + CitationInstruction
  {
  }

  /** The request: the system prompt, then every history message reduced to role and
      content, in order. */
  function OutgoingMessages(systemPrompt: string, messages: seq<Message>): (r: seq<PromptMessage>)
    ensures |r| == |messages| + 1
    ensures r[0] == PromptMessage("system", systemPrompt)
    ensures forall k :: 0 <= k < |messages| ==>
      r[k + 1] == PromptMessage(RoleName(messages[k].role), messages[k].content)
  {
    [PromptMessage("system", systemPrompt)]
      + seq(|messages|, k requires 0 <= k < |messages| => PromptMessage(RoleName(messages[k].role), messages[k].content))
  }

  /** What `generateChatResponse(messages, pdfId)` resolves or rejects with. */
  function Response(messages: seq<Message>, pdfId: Option<string>, pdfs: PdfStore, env: ChatEnv,
                    llm: seq<PromptMessage> -> Result<string>): Result<string>
  {
    match llm(OutgoingMessages(SystemPrompt(messages, pdfId, pdfs, env), messages))
    case Ok(content) => Ok(content)
    case Err(message) => Err(ResponseErrorPrefix + message)
  }

  /** `generateChatResponse(messages, pdfId)`: the model's reply to the prompt and the
      history, or its error prefixed with "Failed to generate response: ". */
  method GenerateChatResponse(messages: seq<Message>, pdfId: Option<string>, pdfs: PdfStore, env: ChatEnv,
                              llm: seq<PromptMessage> -> Result<string>)
    returns (r: Result<string>)
    ensures var reply := llm(OutgoingMessages(SystemPrompt(messages, pdfId, pdfs, env), messages));
      (r.Ok? <==> reply.Ok?)
      && (r.Ok? ==> r.value == reply.value)
      && (r.Err? ==> r.error == ResponseErrorPrefix + reply.error)
    ensures r == Response(messages, pdfId, pdfs, env, llm)
  {
    var systemPrompt := BuildSystemPrompt(messages, pdfId, pdfs, env);
    var groqMessages := OutgoingMessages(systemPrompt, messages);
    var completion := llm(groqMessages);
    match completion
    case Ok(content) => r := Ok(content);
    case Err(message) => r := Err(ResponseErrorPrefix + message);
  }
}
