# Student revision app: server core in Dafny

This project models the server side of a study assistant. Students upload
PDFs, chat with a language model about them, take generated quizzes and get
YouTube recommendations. Six components are modelled, one module each:

- `EmbeddingService` (`embedding.dfy`). The word-window chunker `chunkText` and
  `createEmbedding`, which truncates its input and falls back to a zero vector.
- `ChatService` (`chat_service.dfy`). `generateChatResponse` builds a system
  prompt from a fixed preamble plus one of three context sections, then sends
  the prompt and the history to the model:
  - retrieval of the three most similar chunks, with page citations;
  - the first 2000 characters of the text when retrieval fails;
  - the same text plus a usage hint when there are no embeddings or no OpenAI key.
- `ChatController` (`chat_controller.dfy`). The chat endpoints: create, list,
  fetch, send a message and delete. `sendMessage` loads a chat document,
  pushes the user's message and then the reply, renames the chat on its first
  exchange, stamps it and saves it.
- `QuizService` (`quiz_service.dfy`). `generateQuiz` looks up the PDF, keeps
  3000 characters of its text and refuses a text that is too short. It
  prompts the model, strips Markdown code fences from the reply and wraps
  every failure as "Failed to generate quiz: ...".
- `QuizController` (`quiz_controller.dfy`). Grading with trimmed,
  case-insensitive equality, the score and the rounded percentage, the
  answer-free projection of a quiz, and the attempt history.
- `YouTubeService` (`youtube.dfy`). The search query built from the PDF name
  and keywords, and the search policy, which never throws.

Four shared modules support them:

- `Wrappers`: `Option`, `Result` and `Min`.
- `Text`: the JavaScript string built-ins the server uses (`trim`,
  `split(/\s+/)`, `join`, `substring`, `toLowerCase`, literal `replace`,
  number to string).
- `Ranking`: a stable descending sort of positions by a numeric key, for the
  "most similar first" and "newest first" orderings.
- `Models`: the stored records.

The outside world becomes parameters:

- These are function-typed parameters that the model does not interpret:
  - the chat model (Groq);
  - the embedding provider;
  - `JSON.parse`;
  - `cosineSimilarity`;
  - the YouTube search endpoint.
- Whether an API key is configured is a boolean flag.
- Whether the retrieval block throws is a boolean flag.
- Clock readings and database ids are passed in as values.
- The database collections are a `map` (PDFs, quizzes), a `seq` (attempts) and
  the `ChatStore` class (chats, in insertion order).

Two behaviours of the code worth noting:

- **Trailing window.** Chunking five words with a window of 3 and an overlap
  of 1 gives three chunks. The last window `[4, 5)` is
  emitted although it lies inside the previous one (`TrailingWindowKept`).
- **Percentage of zero answers.** The code has no guard for a submission that
  resolves no question: `Math.round(0 / 0 * 100)` is `NaN`. The model returns
  `None` there.

## Model

| member | source | states |
|---|---|---|
| EmbeddingService.CreateEmbedding | server/services/embeddingService.js:8-24 | the provider is asked about the first 6000 characters only; its first vector is returned, and a failed call or an empty reply gives 1536 zeros instead of an error |
| EmbeddingService.EmbeddingIgnoresTail | server/services/embeddingService.js:11 | characters after the first 6000 never change the embedding |
| EmbeddingService.ZeroVector | server/services/embeddingService.js:22 | the fallback has the requested length and every entry is 0 |
| EmbeddingService.ChunkText | server/services/embeddingService.js:42-58 | the loop (start 0, step `chunkSize - overlap`, requires `overlap < chunkSize` so that it terminates) returns exactly the recursive chunk list over the split words, and its chunks come in strictly increasing start order |
| EmbeddingService.ChunkTextDefault | server/services/embeddingService.js:42 | the defaults are a window of 500 words and an overlap of 50 |
| EmbeddingService.Window | server/services/embeddingService.js:47-53 | definition of the window at a visited start (`words.slice(i, i + chunkSize).join(" ")` with its offsets), no contract of its own; see ChunkIsNonEmptyWindow and ChunksOfBounds |
| EmbeddingService.ChunksFrom | server/services/embeddingService.js:46-55 | definition of the chunks emitted from a start on, no contract of its own; see ChunksFromShape, EmittedIffNotBlank and KeptWindowEmitted |
| EmbeddingService.ChunksOf | server/services/embeddingService.js:46-55 | definition of all emitted chunks (from start 0), no contract of its own; see ChunkText, ChunksOfBounds and ChunksCoverWords |
| EmbeddingService.ChunksOfBounds | server/services/embeddingService.js:46-53 | every chunk spans 1 to `chunkSize` words, ends at `min(start + chunkSize, n)`, holds exactly those words joined by single spaces, and starts strictly increase |
| EmbeddingService.ChunksFromShape | server/services/embeddingService.js:46-55 | every emitted chunk is the non-blank window at one of the visited starts, in increasing start order, at most one per visited start |
| EmbeddingService.ChunkIsNonEmptyWindow | server/services/embeddingService.js:47-53 | an emitted chunk has `start < end <= n`, at most `chunkSize` words and `end = min(start + chunkSize, n)` |
| EmbeddingService.StartsAt | server/services/embeddingService.js:46 | the m-th visited start is `m * step` past the first |
| EmbeddingService.StartsCount | server/services/embeddingService.js:46 | the number of visited windows is the least `c` with `c * step >= n` |
| EmbeddingService.StartsCover | server/services/embeddingService.js:46-52 | with `0 <= overlap < chunkSize`, every word index lies inside some visited window |
| EmbeddingService.KeptWindowEmitted | server/services/embeddingService.js:48-54 | a visited window whose text is not blank is emitted |
| EmbeddingService.EmittedIffNotBlank | server/services/embeddingService.js:47-55 | a visited window is emitted if and only if its joined text is not blank after trimming |
| EmbeddingService.WindowBlankIffWordsBlank | server/services/embeddingService.js:47-48 | a window's joined text is blank if and only if every word in it is blank |
| EmbeddingService.ChunksCoverWords | server/services/embeddingService.js:46-55 | every non-blank word lies inside some emitted chunk (for `0 <= overlap`) |
| EmbeddingService.SplitWindowDroppedIffEmpty | server/services/embeddingService.js:44-48 | over the words of `split(/\s+/)` a window is dropped if and only if all its words are empty strings |
| EmbeddingService.TrailingWindowKept | server/services/embeddingService.js:46-55 | five words, window 3, overlap 1 give the chunks [0,3), [2,5) and [4,5) |
| ChatService.LastContent | server/services/chatService.js:29 | definition (the latest message's content, or empty), no contract of its own; see Mode and BarePromptWithoutContext |
| ChatService.Mode | server/services/chatService.js:15-25 | context is used if and only if the id is given, the PDF exists, has chunks and the latest content is not empty; retrieval is tried if and only if in addition the first chunk has an embedding and the OpenAI key is set |
| ChatService.Scores | server/services/chatService.js:31-34 | one similarity per chunk, against the query embedding |
| ChatService.TopPositions | server/services/chatService.js:36-38 | `min(n, 3)` positions of chunks, distinct and ranked by descending similarity, ties in stored order |
| ChatService.TopChunks | server/services/chatService.js:36-38 | `min(n, 3)` chunks are kept |
| ChatService.TopChunksRanked | server/services/chatService.js:36-38 | the kept chunks are chunks of the PDF in non-increasing similarity, and no chunk left out is more similar than a kept one |
| ChatService.Snippet | server/services/chatService.js:44-46 | definition of one cited snippet, no contract of its own; see SnippetCites |
| ChatService.SnippetCites | server/services/chatService.js:44-46 | a snippet spells the page number in decimal (it reads back as the page) and quotes the prefix of exactly `min(n, 200)` characters of the chunk's text of length n |
| ChatService.RenderAppend | server/services/chatService.js:43-47 | rendering two chunk lists is rendering each, one after the other |
| ChatService.RenderStep | server/services/chatService.js:43-47 | each `forEach` step extends the rendering by one snippet |
| ChatService.RenderContext | server/services/chatService.js:42-47 | the loop yields the heading followed by the snippets of all kept chunks, in order |
| ChatService.SystemPrompt | server/services/chatService.js:11-65 | every prompt starts with the preamble |
| ChatService.BuildSystemPrompt | server/services/chatService.js:11-65 | the growth by `+=` along the taken branch yields exactly the prompt of the branch selected by `Mode` |
| ChatService.BarePromptWithoutContext | server/services/chatService.js:15-20 | with no id, an unknown PDF, no chunks or an empty latest message the prompt is exactly the preamble, with no fallback text |
| ChatService.OnlyFirstEmbeddingDecides | server/services/chatService.js:22-25 | replacing every chunk but the first never changes the branch |
| ChatService.FallbacksDifferByHint | server/services/chatService.js:51-62 | the failed-retrieval prompt is the plain-text prompt without "Use this context when relevant." |
| ChatService.RetrievedPromptShape | server/services/chatService.js:36-50 | a retrieval prompt quotes at most 3 chunks under the heading and ends with the citation instruction |
| ChatService.OutgoingMessages | server/services/chatService.js:67-76 | the system prompt first, then every history message in order, reduced to role and content |
| ChatService.Response | server/services/chatService.js:67-90 | definition of the reply (the model's answer to `OutgoingMessages`, or the prefixed error), no contract of its own; GenerateChatResponse is proved equal to it, and ChatController.Send uses it |
| ChatService.GenerateChatResponse | server/services/chatService.js:5-90 | the reply is the model's answer to exactly that message list, and any model failure is reported with the prefix "Failed to generate response: " |
| ChatController.Find | server/controllers/chatController.js:92-95 | the position found holds a chat with that id; nothing is found if and only if no chat has it |
| ChatController.FindUnique | server/controllers/chatController.js:92 | with distinct ids the chat found is the only one with that id |
| ChatController.NewChat | server/controllers/chatController.js:9-14 | the title defaults to "New Conversation", a missing or empty `pdfId`/`pdfName` becomes null, messages start empty |
| ChatController.TitleFrom | server/controllers/chatController.js:113-116 | a message of at most 50 characters is the title as is; a longer one gives its first 50 characters plus "..." |
| ChatController.Exchange | server/controllers/chatController.js:97-118 | exactly two messages are appended, user then assistant; the title changes only when the chat had no message before; `updatedAt` becomes the separate update time, not the reply time |
| ChatController.Send | server/controllers/chatController.js:87-132 | any error leaves the stored chats unchanged; "Chat not found" is reported if and only if the id is unknown |
| ChatController.SendAppendsExchange | server/controllers/chatController.js:97-119 | a successful send applies `Exchange` to the addressed chat: it appends the message and the model's answer to the history ending in it, renames the chat after the message only if it had no message before, and leaves every other chat as it was |
| ChatController.SendFailureKeepsStore | server/controllers/chatController.js:104-131 | when the reply fails, nothing is saved and the caller gets "Failed to send message" |
| ChatController.SendKeepsIdsDistinct | server/controllers/chatController.js:118-119 | sending keeps every chat's id and their distinctness |
| ChatController.TitleSetOnFirstExchangeOnly | server/controllers/chatController.js:112-116 | the count is 2 after the pushes if and only if the chat was empty, and only then can the title change |
| ChatController.Preview | server/controllers/chatController.js:42-53 | the message count, and the last message cut to 50 characters followed by "...", or "No messages yet" |
| ChatController.PreviewAlwaysEllipsis | server/controllers/chatController.js:47-51 | the preview always ends in "..." even for a short message, unlike a title made from the same message |
| ChatController.UpdatedKeys | server/controllers/chatController.js:39 | one sort key per chat, its `updatedAt` |
| ChatController.ChatList | server/controllers/chatController.js:36-53 | one preview per stored chat |
| ChatController.ChatListAt | server/controllers/chatController.js:38-53 | the k-th entry previews the chat at the k-th ranked position |
| ChatController.ChatListOrder | server/controllers/chatController.js:38-39 | the listing runs from the newest `updatedAt` to the oldest |
| ChatController.ChatListed | server/controllers/chatController.js:38-53 | every stored chat appears in the listing |
| ChatController.Remove | server/controllers/chatController.js:138 | an unknown id removes nothing; a known one removes one record |
| ChatController.RemoveExactly | server/controllers/chatController.js:136-144 | after deletion no chat has the id, every other chat is kept and nothing new appears |
| ChatController.ChatDocument.Push | server/controllers/chatController.js:98-110 | a push appends one message and touches nothing else |
| ChatController.ChatStore.CreateChat | server/controllers/chatController.js:5-28 | the new chat is appended to the store and returned |
| ChatController.ChatStore.GetChatById | server/controllers/chatController.js:63-84 | the stored chat with that id, or "Chat not found" if and only if there is none |
| ChatController.ChatStore.GetAllChats | server/controllers/chatController.js:36-60 | the previews of the stored chats, newest first |
| ChatController.ChatStore.Save | server/controllers/chatController.js:119 | the document's record replaces the stored one |
| ChatController.ChatStore.SendMessage | server/controllers/chatController.js:87-133 | load, push, generate, push, retitle, stamp and save give exactly the reply and the store that `Send` specifies, and ids stay distinct |
| ChatController.ChatStore.DeleteChat | server/controllers/chatController.js:136-149 | the chat is removed and "Chat deleted successfully" returned, or "Chat not found" if and only if the id is unknown |
| QuizService.QuizRequest | server/services/quizService.js:163-175 | the request is a system message with the fixed JSON-quiz instruction followed by a user message with the prompt |
| QuizService.CountsOrDefault | server/services/quizService.js:10-13 | an omitted `questionTypes` asks for 3 MCQ, 2 SAQ and 1 LAQ; given counts are used as they are |
| QuizService.GenerateQuiz | server/services/quizService.js:10-204 | every error is "Failed to generate quiz: " plus its message; checked in order: unknown PDF, missing Groq key (the client's error), text under 100 trimmed characters (of the first 3000), then the model's error and the parse error, each wrapped as it is; when every step succeeds the result is a quiz, and a success carries the PDF's id and name and the parsed questions of the defenced reply |
| QuizService.NoGroqKeyFailsFirst | server/services/quizService.js:104-115 | without a Groq key a known PDF fails with the client's error, before the text check and whatever the model would answer |
| QuizService.OmittedCountsAreDefault | server/services/quizService.js:10-13 | omitting `questionTypes` is the same as passing 3, 2 and 1 |
| QuizService.ShortTextSkipsModel | server/services/quizService.js:108-115 | a text that is too short fails whatever the model would answer |
| QuizService.GenerateIgnoresTail | server/services/quizService.js:109 | text after the first 3000 characters never changes the outcome |
| QuizService.Wrap | server/services/quizService.js:200-203 | the wrapped error is the prefix followed by the original message |
| QuizService.Sufficient | server/services/quizService.js:111 | definition (at least 100 characters once trimmed), no contract of its own; see GenerateQuiz and ShortTextSkipsModel |
| QuizService.StripTag | server/services/quizService.js:187-188 | the global `replace(/<tag>\n?/g, "")`: never lengthens the text; see StripTagSkips, StripTagAtTag and StripTagCopies |
| QuizService.StripFences | server/services/quizService.js:181-189 | definition (trim, remove "```json", remove "```", trim), no contract of its own; see JsonFencedReply, FencedReply and UnfencedReply |
| QuizService.StripTagSkips | server/services/quizService.js:186-188 | text without backticks passes through fence removal unchanged |
| QuizService.StripTagAtTag | server/services/quizService.js:187-188 | a fence is removed with at most one following newline |
| QuizService.FenceFacts | server/services/quizService.js:187-188 | "```json" removal leaves a bare "```"; "```" removal deletes it |
| QuizService.NoBacktickPadded | server/services/quizService.js:186-189 | padding a backtick-free body with newlines keeps it backtick-free |
| QuizService.ClosingFence | server/services/quizService.js:187-188 | the closing fence survives "```json" removal and is removed by "```" removal |
| QuizService.FencedIsTrimmed | server/services/quizService.js:181 | a reply that starts and ends with a backtick is unchanged by the first trim |
| QuizService.TrimDropsNewline | server/services/quizService.js:189 | a trailing newline does not survive the final trim |
| QuizService.JsonFencedReply | server/services/quizService.js:181-189 | a reply "```json\n<body>\n```" yields the trimmed body |
| QuizService.FencedReply | server/services/quizService.js:181-189 | a reply "```\n<body>\n```" yields the trimmed body |
| QuizService.StripTagCopies | server/services/quizService.js:187-188 | where the fence does not start, the character is kept |
| QuizService.OpeningFenceKept | server/services/quizService.js:187 | "```json" removal leaves a reply opened by a plain fence unchanged |
| QuizService.UnfencedReply | server/services/quizService.js:181-189 | a reply without backticks is only trimmed |
| QuizController.FindQuestion | server/controllers/quizController.js:55 | the question found carries the id; nothing is found if and only if no question has it |
| QuizController.FindQuestionFirst | server/controllers/quizController.js:55 | the question found is the first with that id |
| QuizController.CorrectIgnoresPadding | server/controllers/quizController.js:61-63 | white space around an answer never changes its grade |
| QuizController.CorrectIgnoresCase | server/controllers/quizController.js:61-63 | lower-casing an answer never changes its grade |
| QuizController.Grade | server/controllers/quizController.js:61-74 | `isCorrect` holds if and only if trimmed, lowered answers agree; the stored fields are copied |
| QuizController.Normalize | server/controllers/quizController.js:62-63 | definition (`trim()` then `toLowerCase()`), no contract of its own; see CorrectIgnoresPadding, CorrectIgnoresCase and Text.TrimLowerCommute |
| QuizController.Correct | server/controllers/quizController.js:61-63 | definition (equal normal forms), no contract of its own; see Grade, CorrectIgnoresPadding and CorrectIgnoresCase |
| QuizController.Results | server/controllers/quizController.js:53-76 | no more results than submitted answers; see ResultsGradeResolved, ResultsAppend and UnresolvedDropped |
| QuizController.ResultOf | server/controllers/quizController.js:54-59 | an answer gives one result when its question exists and none otherwise |
| QuizController.Resolved | server/controllers/quizController.js:53-76 | the kept answers all have a question and are no more than the submitted ones |
| QuizController.ResultsGradeResolved | server/controllers/quizController.js:53-76 | the results are exactly the resolved answers, in order, each graded against its question |
| QuizController.ResultsAppend | server/controllers/quizController.js:53-76 | the results of two batches of answers are the results of each |
| QuizController.UnresolvedDropped | server/controllers/quizController.js:57-76 | an answer to an unknown question leaves no trace in the results |
| QuizController.CorrectCount | server/controllers/quizController.js:78 | at most the number of results; equal to it if and only if all are correct; 0 if and only if none is |
| QuizController.Percentage | server/controllers/quizController.js:80 | undefined if and only if there is no result; otherwise the nearest integer to `100 * correct / total`, halves rounded up |
| QuizController.PercentageBounds | server/controllers/quizController.js:80 | the percentage is at most 100, exactly 100 when all are correct and 0 when none is |
| QuizController.PercentageExamples | server/controllers/quizController.js:80 | 2 of 3 gives 67, 1 of 8 gives 13, no result gives no percentage |
| QuizController.AnswerRecords | server/controllers/quizController.js:86-91 | one answer record per result, copying its four fields |
| QuizController.SubmitQuiz | server/controllers/quizController.js:42-108 | "Quiz not found" if and only if the quiz is unknown, and then nothing is stored; otherwise the results of the submitted answers, the number of correct results as the score, the number of results as the total, and the attempt appended to the stored attempts |
| QuizController.SubmittedAttempt | server/controllers/quizController.js:83-95 | the attempt records the quiz and its PDF, the number correct as the score, the number of resolved answers as the total, and the percentage of the two |
| QuizController.ForClient | server/controllers/quizController.js:18-29 | the projection keeps the ids, names, time and each question's id, type, text and options, in order |
| QuizController.ForClientHidesAnswers | server/controllers/quizController.js:17-29 | quizzes that differ only in answers and explanations look identical to the client |
| QuizController.CreateQuiz | server/controllers/quizController.js:6-38 | a generated quiz is added to the quiz collection under its new id and returned without answers; on an error nothing is stored and the error is reported with its message, or the generic one when the message is empty |
| QuizController.CreatedQuizGradable | server/controllers/quizController.js:14-59 | a quiz just created can be submitted under the id the client received: answers are graded against the generated questions, the client's question ids are the stored ones, and earlier quizzes are kept |
| QuizController.CreateQuizReportsGenerationError | server/controllers/quizController.js:35-38 | a generation error is always reported with its own message, and no quiz is stored |
| QuizController.ForPdf | server/controllers/quizController.js:120 | every kept attempt is a stored one of that PDF, and every stored attempt of that PDF is kept |
| QuizController.ForPdfAppend | server/controllers/quizController.js:120 | filtering two stretches of the collection is filtering each, in stored order |
| QuizController.ForPdfSingle | server/controllers/quizController.js:120 | one attempt is kept once if it belongs to the PDF and dropped otherwise |
| QuizController.ForPdfCounts | server/controllers/quizController.js:120 | an attempt of the PDF is kept as many times as it is stored; any other is never kept |
| QuizController.CompletedKeys | server/controllers/quizController.js:122 | one sort key per attempt, its completion time |
| QuizController.HistoryPool | server/controllers/quizController.js:120 | the attempts the query matches are stored ones, all of the requested PDF when one is given |
| QuizController.AttemptHistory | server/controllers/quizController.js:116-124 | `min(m, 50)` attempts are listed, where m is the size of the pool (all stored attempts, or those of the requested PDF), from the newest `completedAt` to the oldest |
| QuizController.HistoryAt | server/controllers/quizController.js:121-124 | the k-th listed attempt is the matching attempt at the k-th ranked position |
| QuizController.HistoryShape | server/controllers/quizController.js:120-124 | listed attempts are stored ones of the requested PDF, newest first |
| QuizController.HistoryKeepsNewest | server/controllers/quizController.js:121-124 | a matching attempt left out is no newer than any listed one |
| QuizController.LatestHeadsHistory | server/controllers/quizController.js:120-124 | an attempt completed after every other stored one is listed first, in the full history and in its PDF's |
| QuizController.NewestSubmissionHeadsHistory | server/controllers/quizController.js:83-124 | a submission completed after every stored attempt heads the history read afterwards |
| YouTubeService.IsKeyword | server/services/youtubeService.js:29-31 | definition (longer than 4 and not a stop word, compared lower-cased), no contract of its own; see KeywordIffLong |
| YouTubeService.KeywordIffLong | server/services/youtubeService.js:13-31 | every stop word has at most 4 characters, so a word is a keyword if and only if it is longer than 4 |
| YouTubeService.Keywords | server/services/youtubeService.js:29-32 | every kept word is a keyword from the input |
| YouTubeService.KeywordsExactly | server/services/youtubeService.js:29-32 | a word is kept if and only if it is in the input and is a keyword |
| YouTubeService.KeywordsAppend | server/services/youtubeService.js:29-32 | the filter keeps the original order |
| YouTubeService.TopicKeywords | server/services/youtubeService.js:9-33 | the first `min(k, 5)` of the k keywords of the first 500 characters, in their order; each longer than 4 characters and without white space |
| YouTubeService.BaseQuery | server/services/youtubeService.js:36-38 | definition of the untruncated query, no contract of its own; see ExtractTopics, QueryStartsWithName and StripsFirstPdfOnly |
| YouTubeService.ExtractTopics | server/services/youtubeService.js:7-41 | the query is the first `min(n, 100)` characters of the untruncated query of length n |
| YouTubeService.ExtractTopicsIgnoresTail | server/services/youtubeService.js:9 | only the first 500 characters of the text matter |
| YouTubeService.QueryStartsWithName | server/services/youtubeService.js:36-40 | the query opens with the name stripped of ".pdf", as much of it as fits |
| YouTubeService.StripsPdfSuffix | server/services/youtubeService.js:36 | "notes.pdf" becomes "notes" |
| YouTubeService.StripsFirstPdfOnly | server/services/youtubeService.js:36 | only the first ".pdf" is removed |
| YouTubeService.KeepsUpperCasePdf | server/services/youtubeService.js:36 | the ".pdf" match is case-sensitive |
| YouTubeService.Request | server/services/youtubeService.js:66-77 | the request asks for 6 videos of category 27, in English, with strict safe search |
| YouTubeService.VideoOf | server/services/youtubeService.js:80-88 | a video copies the hit's fields and links to "https://www.youtube.com/watch?v=" plus its id |
| YouTubeService.UrlNamesVideo | server/services/youtubeService.js:87 | the watch link gives back the video id |
| YouTubeService.SearchYouTubeVideos | server/services/youtubeService.js:44-105 | an unknown PDF or a failed request gives an empty query and no videos; no key gives the PDF name and no videos; success gives the query and one video per hit, in order |
| YouTubeService.NoKeyNoRequest | server/services/youtubeService.js:53-59 | without a key the result does not depend on the search endpoint |
| YouTubeService.ReportedQuery | server/services/youtubeService.js:62-95 | with a key the reported query has at most 100 characters, and videos only come with a prefix of the untruncated query |
| Ranking.Sort | server/services/chatService.js:36-37 | insertion sort of positions: a permutation, ranked by descending key with ties in original order |
| Ranking.Rank | server/services/chatService.js:36-37 | every position exactly once, ranked |
| Ranking.Top | server/services/chatService.js:36-38 | the first `min(n, k)` ranked positions |
| Ranking.TopBeatsRest | server/services/chatService.js:36-38 | a kept position's key is at least that of any position left out |
| Ranking.InsertCount | server/services/chatService.js:36-37 | inserting adds exactly one position |
| Ranking.InsertRanked | server/services/chatService.js:36-37 | inserting into a ranked list keeps it ranked |
| Models.RoleName | server/models/Chat.js:4-8 | a role is stored as "user" or "assistant" |
| Models.OrElse | server/controllers/chatController.js:10-12 | a string or its fallback (JavaScript `or`): the value when it is non-empty, else the fallback |
| Text.Prefix | server/services/chatService.js:46 | `substring(0, n)` is a prefix of length n, or the whole string when it is shorter |
| Text.Trim | server/controllers/quizController.js:62-63 | `trim()` never lengthens a string; see TrimEmptyIffBlank and TrimIgnoresPadding |
| Text.TrimEmptyIffBlank | server/services/embeddingService.js:48 | `trim()` is empty if and only if the string is all white space |
| Text.TrimIgnoresPadding | server/controllers/quizController.js:62-63 | white space around a string never changes its trim |
| Text.JoinBlankIffAllBlank | server/services/embeddingService.js:47-48 | a space-joined list is blank if and only if every element is |
| Text.Join | server/services/embeddingService.js:47 | definition of `join(sep)`, no contract of its own; see JoinBlankIffAllBlank and EmbeddingService.ChunksOfBounds |
| Text.Split | server/services/embeddingService.js:44 | definition of `split(/\s+/)`, no contract of its own; see SplitPieces and SplitNoSpace |
| Text.SplitPieces | server/services/embeddingService.js:44 | `split(/\s+/)` gives at least one piece, no piece holds white space, and the pieces hold the non-space characters in order |
| Text.SplitNoSpace | server/services/youtubeService.js:12 | the pieces of a split hold exactly the non-space characters of the input |
| Text.ToLower | server/controllers/quizController.js:62-63 | lower-casing keeps the length and maps each character |
| Text.TrimLowerCommute | server/controllers/quizController.js:62-63 | trimming and lower-casing commute |
| Text.RemoveFirst | server/services/youtubeService.js:36 | `replace(pat, "")` with a literal pattern: one occurrence's length shorter when the pattern occurs, unchanged otherwise; see YouTubeService.StripsFirstPdfOnly |
| Text.IndexOf | server/services/youtubeService.js:36 | the first occurrence of a literal pattern, or none |
| Text.NatToStringRoundTrip | server/services/chatService.js:44-45 | a number's decimal rendering reads back as the number |

## Left out

- The React client, the routes, `server.js` and `pdfController.js`. Uploading and parsing PDFs is not modelled; stored PDFs are given as values.
- `cosineSimilarity` is floating-point arithmetic. The model takes it as an uninterpreted score function, so its `NaN` for zero vectors and its reads past a shorter vector are not modelled.
- Persistence is treated as reliable: every `catch` arm for a database failure goes unmodelled ("Failed to create chat", "Failed to fetch chats", "Failed to fetch chat", "Failed to delete chat", "Failed to submit quiz", "Failed to fetch quiz attempts"). For `sendMessage`, only the reply failure leads to "Failed to send message".
- Mongoose schema validation on save is not modelled. This includes `QuizAttempt.pdfName`, which is required but never set by `submitQuiz`. It also includes empty message contents and a `NaN` percentage, which Mongoose would reject.
- `QuizController.SubmitQuiz`: because `pdfName` is required and never set, `attempt.save()` (quizController.js:97) rejects in the running program, so every submission to a known quiz answers 500 "Failed to submit quiz" and stores nothing. The model describes the submission as the code intends it, without that validation, so its `Submitted` outcome is one the program as written never reaches.
- The `populate("pdfId", "originalName")` join of the attempt history is not modelled.
- `QuizController.Percentage`: the exact rational value of `correct / total * 100` is rounded, not its IEEE double. The results agree except where floating point lands just below a half.
- String lengths count Unicode scalar values, not UTF-16 code units. `toLowerCase` lowers ASCII letters only.
- Database ids are parameters: the id of a created chat or quiz, and the ids of generated questions (assigned by the opaque parse and save). `CreateChat` and `QuizController.CreateQuiz` require their id to be unused, as a fresh ObjectId is.
- Date and time readings are parameters: the user message's time, the reply message's time and the `updatedAt` stamp of `sendMessage` are three separate readings, and the completion time of an attempt is one more. The `updatedAt` that `timestamps: true` writes again on save is taken to be the same reading as `chat.updatedAt = new Date()`.
- Tie order of the database sorts (`updatedAt`, `completedAt`) is taken to be stored order, as with a stable sort.
- Whether the retrieval block throws is an input flag. Inside it, the thrown error can only come from the similarity computation or the mapping of the chunks, since `createEmbedding` never throws.
- API-key presence is an input flag. For Groq, the message the client constructor throws without a key comes from the SDK, which is not part of this model, so it is a parameter. `YOUTUBE_API_KEY` is read when the module loads, which may be before the environment file is read.
- `chunkText` requires `overlap < chunkSize` with `chunkSize` a natural number: otherwise the loop in the source never ends. A negative or non-numeric `chunkSize` is not modelled.
- An id that is not a valid ObjectId makes `findById` throw a cast error. That case is not modelled: ids are plain keys, and a malformed one is simply unknown.
- Non-numeric or negative question counts in `questionTypes` are not modelled: counts are natural numbers.
- The mock-data branch of `generateQuiz` is not modelled: `USE_MOCK_DATA` is `false`, so the branch is dead.
- `QuizService.QuizPrompt` has no contract of its own. Its text is the prompt template with the counts in decimal and the study text. `QuizService.QuizRequest` states where it goes.
- The model name, temperature and token limits of the completion requests are not modelled. `createEmbedding`'s model name is not modelled either.
- Log output (`console.log`, `console.error`) is not modelled.
- HTTP status codes are implied by the error messages. "Chat not found" and "Quiz not found" are 404 replies. The other errors are 500 replies. Success is 201 for creation and 200 otherwise.
