/**
 * server/services/quizService.js: what `generateQuiz` does around its two
 * opaque steps (the Groq chat completion and `JSON.parse`). It looks the PDF
 * up, keeps the first 3000 characters of its text, refuses a text that is
 * too short before calling the model, builds the prompt, strips Markdown
 * code fences from the reply, and wraps every failure as
 * "Failed to generate quiz: <message>".
 */
module QuizService {
  import opened Wrappers
  import opened Text
  import opened Models

  /** Only this many characters of the PDF text are put into the prompt. */
  const TextLimit: nat := 3000

  /** The trimmed prompt text must have at least this many characters. */
  const MinTextLength: nat := 100

  /** The prefix of every error `generateQuiz` throws. */
  const ErrorPrefix: string := "Failed to generate quiz: "

  const PdfNotFound: string := "PDF not found"

  const NotEnoughText: string := "PDF does not contain enough text content for quiz generation"

  /** The system message of the completion request. */
  const SystemInstruction: string :=
    "You are a helpful assistant that generates educational quiz questions in JSON format."

  /** How many questions of each type the prompt asks for. */
  datatype QuestionCounts = QuestionCounts(mcq: nat, saq: nat, laq: nat)

  /** The `questionTypes` default: 3 MCQ, 2 SAQ and 1 LAQ. */
  const DefaultCounts: QuestionCounts := QuestionCounts(3, 2, 1)

  /** The counts used for an omitted (`undefined`) `questionTypes` argument, or the given
      ones. */
  function CountsOrDefault(questionTypes: Option<QuestionCounts>): (c: QuestionCounts)
    ensures questionTypes.None? ==> c.mcq == 3 && c.saq == 2 && c.laq == 1
    ensures questionTypes.Some? ==> c == questionTypes.value
  {
    match questionTypes
    case None => DefaultCounts
    case Some(counts) => counts
  }

  /** What `generateQuiz` resolves to: the data a `Quiz` document is created from. */
  datatype GeneratedQuiz = GeneratedQuiz(pdfId: string, pdfName: string, questions: seq<Question>)

  /** The fixed text of the prompt before the first count. */
  const PromptOpening: string :=
    "You are an expert educator creating a quiz from study material.\n\n"
    + "Based on the following text from a student's coursebook, generate a quiz with:\n- "

  /** The fixed text of the prompt after the study text: the answer format and the rules. */
  const PromptFormat: string := @"IMPORTANT: Return ONLY valid JSON in this exact format, with no additional text:
{
  ""questions"": [
    {
      ""type"": ""MCQ"",
      ""question"": ""What is the main concept discussed?"",
      ""options"": [""Option A"", ""Option B"", ""Option C"", ""Option D""],
      ""correctAnswer"": ""Option A"",
      ""explanation"": ""This is correct because...""
    },
    {
      ""type"": ""SAQ"",
      ""question"": ""Explain the concept briefly."",
      ""options"": [],
      ""correctAnswer"": ""Brief answer here"",
      ""explanation"": ""Detailed explanation""
    },
    {
      ""type"": ""LAQ"",
      ""question"": ""Discuss in detail."",
      ""options"": [],
      ""correctAnswer"": ""Detailed answer in 2-3 sentences"",
      ""explanation"": ""Complete explanation""
    }
  ]
}

Rules:
- MCQ must have exactly 4 options
- Questions should test understanding, not just recall
- Explanations should be educational and clear
- Ensure questions are unambiguous
- Return ONLY the JSON object, no markdown formatting"

  /** The user prompt: the three counts in decimal, then the study text, then the format. */
  function QuizPrompt(counts: QuestionCounts, text: string): string
  {
    PromptOpening
      + NatToString(counts.mcq) + " Multiple Choice Questions (MCQ)\n- "
      + NatToString(counts.saq) + " Short Answer Questions (SAQ)\n- "
      + NatToString(counts.laq) + " Long Answer Questions (LAQ)\n\n"
      + "Text Content:\n" + text + "\n\n"
      + PromptFormat
  }

  /** The request sent to the model: the system instruction and the prompt. */
  function QuizRequest(counts: QuestionCounts, text: string): (m: seq<PromptMessage>)
    ensures |m| == 2 && m[0].role == "system" && m[1].role == "user"
    ensures m[0].content == SystemInstruction
    ensures m[1].content == QuizPrompt(counts, text)
  {
    [PromptMessage("system", SystemInstruction), PromptMessage("user", QuizPrompt(counts, text))]
  }

  /** The text is enough for a quiz: at least 100 characters once trimmed. */
  predicate Sufficient(text: string)
  {
    |Trim(text)| >= MinTextLength
  }

  /** `s.replace(/<tag>\n?/g, "")`: scanning from the left, every occurrence of `tag`
      is removed together with one newline right after it. */
  function StripTag(s: string, tag: string): (r: string)
    requires |tag| > 0
    ensures |r| <= |s|
    decreases |s|
  {
    if |tag| <= |s| && s[..|tag|] == tag then
      var rest := s[|tag|..];
      if rest != [] && rest[0] == '\n' then StripTag(rest[1..], tag) else StripTag(rest, tag)
    else if s == [] then []
    else [s[0]] + StripTag(s[1..], tag)
  }

  const JsonFence: string := "```json"

  const Fence: string := "```"

  /** The reply cleaned for parsing: trimmed, every "```json" and then every "```" removed
      (each with one following newline), trimmed again. */
  function StripFences(reply: string): string
  {
    Trim(StripTag(StripTag(Trim(reply), JsonFence), Fence))
  }

  /** No character is a backtick. */
  predicate NoBacktick(s: string)
  {
    forall i :: 0 <= i < |s| ==> s[i] != '`'
  }

  /** Text without backticks passes through tag removal unchanged, for tags that start
      with a backtick. */
  lemma {:induction false} StripTagSkips(s: string, t: string, tag: string)
    requires |tag| > 0 && tag[0] == '`' && NoBacktick(s)
    ensures StripTag(s + t, tag) == s + StripTag(t, tag)
    decreases |s|
  {
    if s != [] {
      var st := s + t;
      assert st[0] == s[0] != '`';
      assert |tag| <= |st| ==> st[..|tag|][0] == st[0];
      assert st[1..] == s[1..] + t;
      StripTagSkips(s[1..], t, tag);
      assert s == [s[0]] + s[1..];
      assert StripTag(st, tag) == [s[0]] + (s[1..] + StripTag(t, tag));
    } else {
      assert s + t == t;
    }
  }

  /** A tag is removed together with one newline after it. */
  lemma StripTagAtTag(tag: string, rest: string)
    requires |tag| > 0
    ensures StripTag(tag + rest, tag)
      == if rest != [] && rest[0] == '\n' then StripTag(rest[1..], tag) else StripTag(rest, tag)
  {
    var s := tag + rest;
    assert s[..|tag|] == tag && s[|tag|..] == rest;
  }

  /** The closing fence alone: "```json" leaves it, "```" removes it. */
  lemma FenceFacts()
    ensures StripTag(Fence, JsonFence) == Fence
    ensures StripTag(Fence, Fence) == []
  {
    assert StripTag("`", JsonFence) == "`";
    assert StripTag("``", JsonFence) == "``";
    StripTagAtTag(Fence, []);
    assert Fence + [] == Fence;
  }

  /** Surrounding a backtick-free body with newlines keeps it backtick-free. */
  lemma NoBacktickPadded(body: string)
    requires NoBacktick(body)
    ensures NoBacktick(body + "\n") && NoBacktick("\n" + body + "\n")
  {
    var a, b := body + "\n", "\n" + body + "\n";
    forall i | 0 <= i < |a| ensures a[i] != '`' {
      if i < |body| { assert a[i] == body[i]; }
    }
    forall i | 0 <= i < |b| ensures b[i] != '`' {
      if 0 < i <= |body| { assert b[i] == body[i - 1]; }
    }
  }

  /** The body and the closing fence, after the opening fence is gone: "```json" leaves
      them, "```" leaves the body and its newline. */
  lemma ClosingFence(body: string)
    requires NoBacktick(body)
    ensures StripTag(body + "\n" + Fence, JsonFence) == body + "\n" + Fence
    ensures StripTag(body + "\n" + Fence, Fence) == body + "\n"
  {
    NoBacktickPadded(body);
    StripTagSkips(body + "\n", Fence, JsonFence);
    StripTagSkips(body + "\n", Fence, Fence);
    FenceFacts();
  }

  /** A fenced reply is already trimmed: it starts and ends with a backtick. */
  lemma FencedIsTrimmed(reply: string)
    requires |reply| > 0 && reply[0] == '`' && reply[|reply| - 1] == '`'
    ensures Trim(reply) == reply
  {
    TrimOfTrimmed(reply);
  }

  /** A trailing newline does not survive the final trim. */
  lemma TrimDropsNewline(body: string)
    ensures Trim(body + "\n") == Trim(body)
  {
    TrimIgnoresPadding("", body, "\n");
    assert "" + body + "\n" == body + "\n";
  }

  /** A reply wrapped as "```json\n<body>\n```" yields the trimmed body, when the body has
      no backticks. */
  lemma JsonFencedReply(body: string)
    requires NoBacktick(body)
    ensures StripFences(JsonFence + "\n" + body + "\n" + Fence) == Trim(body)
  {
    var inner := body + "\n" + Fence;
    var reply := JsonFence + ("\n" + inner);
    assert JsonFence + "\n" + body + "\n" + Fence == reply;
    FencedIsTrimmed(reply);
    StripTagAtTag(JsonFence, "\n" + inner);
    assert ("\n" + inner)[1..] == inner;
    ClosingFence(body);
    TrimDropsNewline(body);
  }

  /** A reply wrapped as "```\n<body>\n```" yields the trimmed body, when the body has
      no backticks: "```json" never matches, since the opening fence is followed by a
      newline. */
  lemma FencedReply(body: string)
    requires NoBacktick(body)
    ensures StripFences(Fence + "\n" + body + "\n" + Fence) == Trim(body)
  {
    var inner := body + "\n" + Fence;
    var reply := Fence + ("\n" + inner);
    assert Fence + "\n" + body + "\n" + Fence == reply;
    FencedIsTrimmed(reply);
    OpeningFenceKept(body);
    StripTagAtTag(Fence, "\n" + inner);
    assert ("\n" + inner)[1..] == inner;
    ClosingFence(body);
    TrimDropsNewline(body);
  }

  /** Where `tag` does not start, the first character is copied. */
  lemma StripTagCopies(s: string, tag: string, k: nat)
    requires |tag| > 0 && k < |tag| && k < |s| && s[k] != tag[k]
    ensures StripTag(s, tag) == [s[0]] + StripTag(s[1..], tag)
  {
    assert |tag| <= |s| ==> s[..|tag|][k] == s[k];
  }

  /** "```json" removal leaves a reply opened by a plain fence unchanged. */
  lemma OpeningFenceKept(body: string)
    requires NoBacktick(body)
    ensures StripTag(Fence + ("\n" + (body + "\n" + Fence)), JsonFence) == Fence + ("\n" + (body + "\n" + Fence))
  {
    var after := ("\n" + body + "\n") + Fence;
    var reply := Fence + ("\n" + (body + "\n" + Fence));
    assert reply == "```" + after;
    var r1 := reply[1..];
    var r2 := r1[1..];
    assert r1 == "``" + after && r2 == "`" + after && r2[1..] == after;
    StripTagCopies(reply, JsonFence, 3);
    StripTagCopies(r1, JsonFence, 2);
    StripTagCopies(r2, JsonFence, 1);
    NoBacktickPadded(body);
    StripTagSkips("\n" + body + "\n", Fence, JsonFence);
    FenceFacts();
    assert StripTag(after, JsonFence) == after;
    assert [reply[0]] + ([r1[0]] + ([r2[0]] + after)) == reply;
  }

  /** A reply without backticks is only trimmed. */
  lemma UnfencedReply(reply: string)
    requires NoBacktick(reply)
    ensures StripFences(reply) == Trim(reply)
  {
    var t := Trim(reply);
    TrimSlice(reply);
    assert NoBacktick(t);
    StripTagSkips(t, [], JsonFence);
    StripTagSkips(t, [], Fence);
    assert t + [] == t;
    TrimSlice(t);
    TrimOfTrimmed(t);
  }

  /** Error wrapping of the `catch` block. */
  function Wrap(message: string): (e: string)
    ensures ErrorPrefix <= e && e[|ErrorPrefix|..] == message
  {
    ErrorPrefix + message
  }

  /** `generateQuiz(pdfId, questionTypes)`. `groqKeySet` says whether `GROQ_API_KEY` is
      configured: the client is constructed after the PDF lookup and before the text
      check, and without a key its constructor throws `clientError` (the SDK is not part
      of this model). `llm` answers a completion request with the reply text or an error
      message; `parse` is `JSON.parse(...).questions`. */
  function GenerateQuiz(
    pdfs: PdfStore, pdfId: string, questionTypes: Option<QuestionCounts>,
    groqKeySet: bool, clientError: string,
    llm: seq<PromptMessage> -> Result<string>, parse: string -> Result<seq<Question>>): (r: Result<GeneratedQuiz>)
    ensures r.Err? ==> ErrorPrefix <= r.error
    ensures pdfId !in pdfs ==> r == Err(Wrap(PdfNotFound))
    ensures pdfId in pdfs && !groqKeySet ==> r == Err(Wrap(clientError))
    ensures pdfId in pdfs && groqKeySet && !Sufficient(Prefix(pdfs[pdfId].textContent, TextLimit))
            ==> r == Err(Wrap(NotEnoughText))
    ensures pdfId in pdfs && groqKeySet && Sufficient(Prefix(pdfs[pdfId].textContent, TextLimit)) ==>
      var reply := llm(QuizRequest(CountsOrDefault(questionTypes), Prefix(pdfs[pdfId].textContent, TextLimit)));
      (reply.Err? ==> r == Err(Wrap(reply.error)))
      && (reply.Ok? && parse(StripFences(reply.value)).Err? ==> r == Err(Wrap(parse(StripFences(reply.value)).error)))
      && (reply.Ok? && parse(StripFences(reply.value)).Ok? ==> r.Ok?)
    ensures r.Ok? ==>
      pdfId in pdfs && groqKeySet
      && Sufficient(Prefix(pdfs[pdfId].textContent, TextLimit))
      && r.value.pdfId == pdfs[pdfId].id
      && r.value.pdfName == pdfs[pdfId].originalName
      && var reply := llm(QuizRequest(CountsOrDefault(questionTypes), Prefix(pdfs[pdfId].textContent, TextLimit)));
         reply.Ok? && parse(StripFences(reply.value)) == Ok(r.value.questions)
  {
    if pdfId !in pdfs then Err(Wrap(PdfNotFound))
    else if !groqKeySet then Err(Wrap(clientError))
    else
      var pdf := pdfs[pdfId];
      var text := Prefix(pdf.textContent, TextLimit);
      if !Sufficient(text) then Err(Wrap(NotEnoughText))
      else
        match llm(QuizRequest(CountsOrDefault(questionTypes), text))
        case Err(m) => Err(Wrap(m))
        case Ok(reply) =>
          match parse(StripFences(reply))
          case Err(m) => Err(Wrap(m))
          case Ok(questions) => Ok(GeneratedQuiz(pdf.id, pdf.originalName, questions))
  }

  /** Without a Groq key the client cannot be built, so every known PDF fails with the
      client's error, whatever its text and whatever the model would answer. */
  lemma NoGroqKeyFailsFirst(
    pdfs: PdfStore, pdfId: string, questionTypes: Option<QuestionCounts>, clientError: string,
    llm1: seq<PromptMessage> -> Result<string>, llm2: seq<PromptMessage> -> Result<string>,
    parse: string -> Result<seq<Question>>)
    requires pdfId in pdfs
    ensures GenerateQuiz(pdfs, pdfId, questionTypes, false, clientError, llm1, parse)
         == GenerateQuiz(pdfs, pdfId, questionTypes, false, clientError, llm2, parse)
         == Err(ErrorPrefix + clientError)
  {
  }

  /** Omitting `questionTypes` asks for 3 MCQ, 2 SAQ and 1 LAQ. */
  lemma OmittedCountsAreDefault(
    pdfs: PdfStore, pdfId: string, groqKeySet: bool, clientError: string,
    llm: seq<PromptMessage> -> Result<string>, parse: string -> Result<seq<Question>>)
    ensures GenerateQuiz(pdfs, pdfId, None, groqKeySet, clientError, llm, parse)
         == GenerateQuiz(pdfs, pdfId, Some(QuestionCounts(3, 2, 1)), groqKeySet, clientError, llm, parse)
  {
  }

  /** A text that is too short fails before the model is asked: the outcome does not
      depend on the model at all. */
  lemma ShortTextSkipsModel(
    pdfs: PdfStore, pdfId: string, questionTypes: Option<QuestionCounts>, groqKeySet: bool, clientError: string,
    llm1: seq<PromptMessage> -> Result<string>, llm2: seq<PromptMessage> -> Result<string>,
    parse: string -> Result<seq<Question>>)
    requires pdfId in pdfs && !Sufficient(Prefix(pdfs[pdfId].textContent, TextLimit))
    ensures GenerateQuiz(pdfs, pdfId, questionTypes, groqKeySet, clientError, llm1, parse)
         == GenerateQuiz(pdfs, pdfId, questionTypes, groqKeySet, clientError, llm2, parse)
    ensures GenerateQuiz(pdfs, pdfId, questionTypes, groqKeySet, clientError, llm1, parse).Err?
  {
  }

  /** Text beyond the first 3000 characters never reaches the prompt or the outcome. */
  lemma GenerateIgnoresTail(
    pdfs: PdfStore, pdfId: string, tail: string, questionTypes: Option<QuestionCounts>,
    groqKeySet: bool, clientError: string,
    llm: seq<PromptMessage> -> Result<string>, parse: string -> Result<seq<Question>>)
    requires pdfId in pdfs && |pdfs[pdfId].textContent| >= TextLimit
    ensures var pdf := pdfs[pdfId];
      GenerateQuiz(pdfs[pdfId := pdf.(textContent := pdf.textContent + tail)], pdfId, questionTypes,
                   groqKeySet, clientError, llm, parse)
      == GenerateQuiz(pdfs, pdfId, questionTypes, groqKeySet, clientError, llm, parse)
  {
    var pdf := pdfs[pdfId];
    assert Prefix(pdf.textContent + tail, TextLimit) == Prefix(pdf.textContent, TextLimit) by {
      assert (pdf.textContent + tail)[..TextLimit] == pdf.textContent[..TextLimit];
    }
  }
}
