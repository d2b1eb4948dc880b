/**
 * The persisted documents of the server, one datatype per Mongoose schema
 * (the files under server/models). Identifiers (`ObjectId`s) are strings and dates are
 * integers (milliseconds since the epoch); the schemas' numbers that are
 * counts are `nat`, the embedding components are `real`.
 */
module Models {
  import opened Wrappers

  /** The `type` enumeration of a quiz question. */
  datatype QuestionType = MCQ | SAQ | LAQ

  /** One question of a quiz; `options` is empty unless the generator supplied some. */
  datatype Question = Question(
    id: string,
    qtype: QuestionType,
    question: string,
    options: seq<string>,
    correctAnswer: string,
    explanation: string)

  /** A stored quiz: the questions generated from one PDF. */
  datatype Quiz = Quiz(
    id: string,
    pdfId: string,
    pdfName: string,
    questions: seq<Question>,
    createdAt: int)

  /** The snapshot of one graded answer kept in an attempt. */
  datatype AnswerRecord = AnswerRecord(
    questionId: string,
    userAnswer: string,
    correctAnswer: string,
    isCorrect: bool)

  /** One scored submission. `percentage` is `None` where JavaScript computes `NaN`. */
  datatype QuizAttempt = QuizAttempt(
    quizId: string,
    pdfId: string,
    answers: seq<AnswerRecord>,
    score: nat,
    totalQuestions: nat,
    percentage: Option<nat>,
    completedAt: int)

  /** The `role` enumeration of a stored chat message. */
  datatype Role = User | Assistant

  /** The value stored for a role. */
  function RoleName(role: Role): (name: string)
    ensures name == "user" || name == "assistant"
  {
    match role
    case User => "user"
    case Assistant => "assistant"
  }

  /** One message of a conversation. */
  datatype Message = Message(role: Role, content: string, timestamp: int)

  /** A stored conversation; `pdfId` and `pdfName` are `null` for a chat not bound to a PDF. */
  datatype ChatRecord = ChatRecord(
    id: string,
    title: string,
    pdfId: Option<string>,
    pdfName: Option<string>,
    messages: seq<Message>,
    createdAt: int,
    updatedAt: int)

  /** One message of a chat-completion request to a language model (Groq). */
  datatype PromptMessage = PromptMessage(role: string, content: string)

  /** The schema default of a chat title. */
  const DefaultChatTitle: string := "New Conversation"

  /** One stored slice of a PDF's text; `embedding` is empty when none was computed. */
  datatype Chunk = Chunk(
    text: string,
    embedding: seq<real>,
    pageNumber: int,
    startIndex: int,
    endIndex: int)

  /** An uploaded PDF with its extracted text. */
  datatype Pdf = Pdf(
    id: string,
    filename: string,
    originalName: string,
    filePath: string,
    fileSize: nat,
    mimeType: string,
    pageCount: nat,
    textContent: string,
    chunks: seq<Chunk>,
    uploadedAt: int)

  /** The PDF collection: `PDF.findById` is a lookup in this map. */
  type PdfStore = map<string, Pdf>

  /** JavaScript truthiness of an optional string: `null`, `undefined` and `""` are falsy. */
  predicate Truthy(s: Option<string>)
  {
    s.Some? && s.value != ""
  }

  /** `s || fallback` for an optional string. */
  function OrElse(s: Option<string>, fallback: string): (r: string)
    ensures Truthy(s) ==> r == s.value
    ensures !Truthy(s) ==> r == fallback
  {
    if Truthy(s) then s.value else fallback
  }
}
