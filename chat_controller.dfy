/**
 * server/controllers/chatController.js: the chat endpoints over the stored
 * conversations. A store holds the chat records in insertion order;
 * `sendMessage` loads one record into a document, pushes the user's message
 * and the generated reply onto it, renames the chat on its first exchange,
 * stamps it and saves it back. A failed reply leaves the store untouched,
 * because the save is never reached.
 */
module ChatController {
  import opened Wrappers
  import opened Text
  import opened Models
  import ChatService
  import Ranking

  const ChatNotFoundMessage: string := "Chat not found"
  const SendFailedMessage: string := "Failed to send message"
  const DeletedMessage: string := "Chat deleted successfully"

  /** Characters of a message kept by a title and by a list preview. */
  const TitleLimit: nat := 50
  const PreviewLimit: nat := 50

  const Ellipsis: string := "..."
  const NoMessagesYet: string := "No messages yet"

  /** No two records share an id. */
  predicate DistinctIds(chats: seq<ChatRecord>)
  {
    forall a, b :: 0 <= a < b < |chats| ==> chats[a].id != chats[b].id
  }

  /** `Chat.findById(id)`: the position of the record with that id. */
  function Find(chats: seq<ChatRecord>, id: string): (r: Option<nat>)
    ensures r.Some? ==> r.value < |chats| && chats[r.value].id == id
    ensures r.None? <==> forall k :: 0 <= k < |chats| ==> chats[k].id != id
  {
    if chats == [] then None
    else if chats[0].id == id then Some(0)
    else match Find(chats[1..], id)
      case None => None
      case Some(k) => Some(k + 1)
  }

  /** With distinct ids, the record found is the only one with that id. */
  lemma FindUnique(chats: seq<ChatRecord>, id: string, k: nat)
    requires DistinctIds(chats) && k < |chats| && chats[k].id == id
    ensures Find(chats, id) == Some(k)
  {
  }

  /** The record `createChat` stores: the title defaults to "New Conversation", a missing
      or empty `pdfId` and `pdfName` become null, and there are no messages yet. */
  function NewChat(id: string, title: Option<string>, pdfId: Option<string>, pdfName: Option<string>, now: int)
    : (c: ChatRecord)
    ensures c.id == id && c.messages == [] && c.createdAt == now && c.updatedAt == now
    ensures c.title == if Truthy(title) then title.value else DefaultChatTitle
    ensures c.pdfId.Some? <==> Truthy(pdfId)
    ensures c.pdfId.Some? ==> c.pdfId == pdfId
    ensures c.pdfName.Some? <==> Truthy(pdfName)
    ensures c.pdfName.Some? ==> c.pdfName == pdfName
  {
    ChatRecord(id, OrElse(title, DefaultChatTitle),
      if Truthy(pdfId) then pdfId else None,
      if Truthy(pdfName) then pdfName else None,
      [], now, now)
  }

  /** The title given on the first exchange:
      `message.substring(0, 50) + (message.length > 50 ? "..." : "")`. */
  function TitleFrom(message: string): (t: string)
    ensures |message| <= TitleLimit ==> t == message
    ensures |message| > TitleLimit ==> t == message[..TitleLimit] + Ellipsis
    ensures |t| <= TitleLimit + |Ellipsis|
  {
    Prefix(message, TitleLimit) + (if |message| > TitleLimit then Ellipsis else "")
  }

  /** One exchange applied to a loaded chat: the user's message and the reply are appended
      in that order, the title is replaced only when the chat had no message before (so the
      count is 2 after the pushes), and the chat is stamped with `stampedAt`. The three times
      are separate clock readings: the default `Date.now` of each pushed message and the
      `new Date()` assigned to `updatedAt`. */
  function Exchange(chat: ChatRecord, message: string, reply: string, sentAt: int, repliedAt: int, stampedAt: int): (c: ChatRecord)
    ensures c.messages == chat.messages + [Message(User, message, sentAt), Message(Assistant, reply, repliedAt)]
    ensures |chat.messages| == 0 ==> c.title == TitleFrom(message)
    ensures |chat.messages| > 0 ==> c.title == chat.title
    ensures c.id == chat.id && c.pdfId == chat.pdfId && c.pdfName == chat.pdfName
    ensures c.createdAt == chat.createdAt && c.updatedAt == stampedAt
  {
    var messages := chat.messages + [Message(User, message, sentAt)] + [Message(Assistant, reply, repliedAt)];
    chat.(messages := messages,
          title := if |messages| == 2 then TitleFrom(message) else chat.title,
          updatedAt := stampedAt)
  }

  /** The part of the chat `sendMessage` answers with. */
  datatype SentChat = SentChat(id: string, messages: seq<Message>, title: string)

  /** The reply and the stored records after `sendMessage(chatId, message)`: an unknown id
      is refused, a reply that fails is reported and nothing is saved, otherwise the
      exchanged chat replaces the stored one. */
  function Send(chats: seq<ChatRecord>, chatId: string, message: string, sentAt: int, repliedAt: int, stampedAt: int,
                pdfs: PdfStore, env: ChatService.ChatEnv, llm: seq<PromptMessage> -> Result<string>)
    : (out: (Result<SentChat>, seq<ChatRecord>))
    ensures out.0.Err? ==> out.1 == chats
    ensures |out.1| == |chats|
    ensures (out.0.Err? && out.0.error == ChatNotFoundMessage) <==> Find(chats, chatId).None?
  {
    match Find(chats, chatId)
    case None => (Err(ChatNotFoundMessage), chats)
    case Some(i) =>
      var chat := chats[i];
      var asked := chat.messages + [Message(User, message, sentAt)];
      match ChatService.Response(asked, chat.pdfId, pdfs, env, llm)
      case Err(_) => (Err(SendFailedMessage), chats)
      case Ok(reply) =>
        var updated := Exchange(chat, message, reply, sentAt, repliedAt, stampedAt);
        (Ok(SentChat(updated.id, updated.messages, updated.title)), chats[i := updated])
  }

  /** A successful send changes only the addressed chat: its history grows by the user's
      message and the model's answer to the history ending in that message, it is renamed
      after the message only if it had no message before, and every other stored chat is
      exactly as before. */
  lemma SendAppendsExchange(chats: seq<ChatRecord>, chatId: string, message: string, sentAt: int, repliedAt: int, stampedAt: int,
                            pdfs: PdfStore, env: ChatService.ChatEnv, llm: seq<PromptMessage> -> Result<string>, i: nat)
    requires DistinctIds(chats) && i < |chats| && chats[i].id == chatId
    requires Send(chats, chatId, message, sentAt, repliedAt, stampedAt, pdfs, env, llm).0.Ok?
    ensures var after := Send(chats, chatId, message, sentAt, repliedAt, stampedAt, pdfs, env, llm).1;
      var asked := chats[i].messages + [Message(User, message, sentAt)];
      var reply := ChatService.Response(asked, chats[i].pdfId, pdfs, env, llm);
      reply.Ok?
      && after[i] == Exchange(chats[i], message, reply.value, sentAt, repliedAt, stampedAt)
      && after[i].messages == asked + [Message(Assistant, reply.value, repliedAt)]
      && (|chats[i].messages| == 0 ==> after[i].title == TitleFrom(message))
      && (|chats[i].messages| > 0 ==> after[i].title == chats[i].title)
      && after[i].updatedAt == stampedAt
      && (forall k :: 0 <= k < |chats| && k != i ==> after[k] == chats[k])
  {
    FindUnique(chats, chatId, i);
  }

  /** A reply that cannot be generated leaves every stored chat as it was, and the caller
      is told "Failed to send message". */
  lemma SendFailureKeepsStore(chats: seq<ChatRecord>, chatId: string, message: string, sentAt: int, repliedAt: int, stampedAt: int,
                              pdfs: PdfStore, env: ChatService.ChatEnv, llm: seq<PromptMessage> -> Result<string>, i: nat)
    requires DistinctIds(chats) && i < |chats| && chats[i].id == chatId
    requires ChatService.Response(chats[i].messages + [Message(User, message, sentAt)], chats[i].pdfId, pdfs, env, llm).Err?
    ensures Send(chats, chatId, message, sentAt, repliedAt, stampedAt, pdfs, env, llm) == (Err(SendFailedMessage), chats)
  {
    FindUnique(chats, chatId, i);
  }

  /** Sending never creates, drops or renumbers chats, so ids stay distinct. */
  lemma SendKeepsIdsDistinct(chats: seq<ChatRecord>, chatId: string, message: string, sentAt: int, repliedAt: int, stampedAt: int,
                             pdfs: PdfStore, env: ChatService.ChatEnv, llm: seq<PromptMessage> -> Result<string>)
    requires DistinctIds(chats)
    ensures var after := Send(chats, chatId, message, sentAt, repliedAt, stampedAt, pdfs, env, llm).1;
      DistinctIds(after) && forall k :: 0 <= k < |chats| ==> after[k].id == chats[k].id
  {
  }

  /** The first exchange of a fresh chat names it after the message; later exchanges keep
      whatever title the chat has. */
  lemma TitleSetOnFirstExchangeOnly(chat: ChatRecord, chat2: ChatRecord, message: string, reply: string, sentAt: int, repliedAt: int, stampedAt: int)
    requires chat2 == Exchange(chat, message, reply, sentAt, repliedAt, stampedAt)
    ensures |chat2.messages| == 2 <==> |chat.messages| == 0
    ensures chat2.title != chat.title ==> |chat.messages| == 0 && chat2.title == TitleFrom(message)
  {
  }

  /** One entry of the `getAllChats` listing. */
  datatype ChatPreview = ChatPreview(
    id: string,
    title: string,
    pdfName: Option<string>,
    messageCount: nat,
    lastMessage: string,
    updatedAt: int)

  /** The preview of one chat. The last message is always cut to 50 characters and followed
      by "...", however short it is. */
  function Preview(chat: ChatRecord): (p: ChatPreview)
    ensures p.id == chat.id && p.title == chat.title && p.pdfName == chat.pdfName && p.updatedAt == chat.updatedAt
    ensures p.messageCount == |chat.messages|
    ensures |chat.messages| == 0 ==> p.lastMessage == NoMessagesYet
    ensures |chat.messages| > 0 ==>
      p.lastMessage == Prefix(chat.messages[|chat.messages| - 1].content, PreviewLimit) + Ellipsis
  {
    ChatPreview(chat.id, chat.title, chat.pdfName, |chat.messages|,
      if |chat.messages| > 0 then Prefix(chat.messages[|chat.messages| - 1].content, PreviewLimit) + Ellipsis
      else NoMessagesYet,
      chat.updatedAt)
  }

  /** The preview of a chat whose last message is short is that message plus "...", while a
      title made from the same message carries no ellipsis. */
  lemma PreviewAlwaysEllipsis(chat: ChatRecord)
    requires |chat.messages| > 0
    ensures var last := chat.messages[|chat.messages| - 1].content;
      var p := Preview(chat).lastMessage;
      p[..|p| - 3] <= last && p[|p| - 3..] == Ellipsis && |p| <= PreviewLimit + 3
      && (|last| <= PreviewLimit ==> p == last + Ellipsis && TitleFrom(last) == last)
  {
    var last := chat.messages[|chat.messages| - 1].content;
    var p := Preview(chat).lastMessage;
    assert p[..|p| - 3] == Prefix(last, PreviewLimit);
  }

  /** The sort keys of `sort({updatedAt: -1})`. */
  function UpdatedKeys(chats: seq<ChatRecord>): (keys: seq<real>)
    ensures |keys| == |chats|
    ensures forall k :: 0 <= k < |keys| ==> keys[k] == chats[k].updatedAt as real
  {
    seq(|chats|, k requires 0 <= k < |chats| => chats[k].updatedAt as real)
  }

  /** `getAllChats`: a preview of every chat, most recently updated first; chats updated
      at the same time keep their stored order. */
  function ChatList(chats: seq<ChatRecord>): (r: seq<ChatPreview>)
    ensures |r| == |chats|
  {
    var order := Ranking.Rank(UpdatedKeys(chats));
    assert Ranking.InRange(UpdatedKeys(chats), order);
    seq(|order|, k requires 0 <= k < |order| => Preview(chats[order[k]]))
  }

  /** The `k`-th entry previews the chat at the `k`-th ranked position. */
  lemma ChatListAt(chats: seq<ChatRecord>, k: nat)
    requires k < |chats|
    ensures var order := Ranking.Rank(UpdatedKeys(chats));
      order[k] < |chats| && ChatList(chats)[k] == Preview(chats[order[k]])
  {
    assert Ranking.InRange(UpdatedKeys(chats), Ranking.Rank(UpdatedKeys(chats)));
  }

  /** The listing runs from the newest `updatedAt` to the oldest, and every stored chat is
      listed (the listing has as many entries as there are chats). */
  lemma ChatListOrder(chats: seq<ChatRecord>)
    ensures var r := ChatList(chats);
      forall a, b :: 0 <= a < b < |r| ==> r[a].updatedAt >= r[b].updatedAt
  {
    var r := ChatList(chats);
    var keys := UpdatedKeys(chats);
    var order := Ranking.Rank(keys);
    forall a, b | 0 <= a < b < |r| ensures r[a].updatedAt >= r[b].updatedAt {
      ChatListAt(chats, a);
      ChatListAt(chats, b);
      assert Ranking.Before(keys, order[a], order[b]);
    }
  }

  /** Every stored chat appears in the listing. */
  lemma ChatListed(chats: seq<ChatRecord>, j: nat) returns (k: nat)
    requires j < |chats|
    ensures k < |ChatList(chats)| && ChatList(chats)[k] == Preview(chats[j])
  {
    var order := Ranking.Rank(UpdatedKeys(chats));
    assert j in order;
    k :| 0 <= k < |order| && order[k] == j;
    ChatListAt(chats, k);
  }

  /** The records after `findByIdAndDelete(id)`: the record with that id, if any, is gone. */
  function Remove(chats: seq<ChatRecord>, id: string): (r: seq<ChatRecord>)
    ensures Find(chats, id).None? ==> r == chats
    ensures Find(chats, id).Some? ==> |r| == |chats| - 1
  {
    match Find(chats, id)
    case None => chats
    case Some(i) => chats[..i] + chats[i + 1..]
  }

  /** Deleting removes exactly the chat with that id: no record with it is left, every other
      record is kept, and nothing new appears. */
  lemma RemoveExactly(chats: seq<ChatRecord>, id: string)
    requires DistinctIds(chats)
    ensures var r := Remove(chats, id);
      DistinctIds(r)
      && (forall k :: 0 <= k < |r| ==> r[k].id != id && r[k] in chats)
      && (forall k :: 0 <= k < |chats| && chats[k].id != id ==> chats[k] in r)
  {
    var r := Remove(chats, id);
    match Find(chats, id)
    case None =>
    case Some(i) =>
      assert forall k :: 0 <= k < |r| ==> r[k] == if k < i then chats[k] else chats[k + 1];
      forall k | 0 <= k < |chats| && chats[k].id != id ensures chats[k] in r {
        if k < i { assert r[k] == chats[k]; } else { assert k > i; assert r[k - 1] == chats[k]; }
      }
  }

  /** A document loaded from the store: the fields `sendMessage` updates in place. */
  class ChatDocument {
    const id: string
    var title: string
    const pdfId: Option<string>
    const pdfName: Option<string>
    var messages: seq<Message>
    const createdAt: int
    var updatedAt: int

    /** The stored record the document holds now. */
    function Record(): (r: ChatRecord)
      reads this
    {
      ChatRecord(id, title, pdfId, pdfName, messages, createdAt, updatedAt)
    }

    /** `Chat.findById`: the document of a stored record. */
    constructor Load(r: ChatRecord)
      ensures Record() == r
    {
      id, title, pdfId, pdfName := r.id, r.title, r.pdfId, r.pdfName;
      messages, createdAt, updatedAt := r.messages, r.createdAt, r.updatedAt;
    }

    /** `chat.messages.push(m)`. */
    method Push(m: Message)
      modifies this
      ensures messages == old(messages) + [m]
      ensures title == old(title) && updatedAt == old(updatedAt)
    {
      messages := messages + [m];
    }
  }

  /** The chat collection: its records in insertion order. */
  class ChatStore {
    var chats: seq<ChatRecord>

    predicate Valid()
      reads this
    {
      DistinctIds(chats)
    }

    constructor ()
      ensures Valid() && chats == []
    {
      chats := [];
    }

    /** `createChat`: store a new chat under a fresh id and return it. */
    method CreateChat(id: string, title: Option<string>, pdfId: Option<string>, pdfName: Option<string>, now: int)
      returns (chat: ChatRecord)
      requires Valid()
      requires Find(chats, id).None?
      modifies this
      ensures Valid()
      ensures chat == NewChat(id, title, pdfId, pdfName, now)
      ensures chats == old(chats) + [chat]
    {
      chat := NewChat(id, title, pdfId, pdfName, now);
      chats := chats + [chat];
    }

    /** `getChatById`: the stored chat, or "Chat not found" (a 404). */
    function GetChatById(id: string): (r: Result<ChatRecord>)
      reads this
      ensures r.Ok? <==> Find(chats, id).Some?
      ensures r.Ok? ==> r.value in chats && r.value.id == id
      ensures r.Err? ==> r.error == ChatNotFoundMessage
    {
      match Find(chats, id)
      case None => Err(ChatNotFoundMessage)
      case Some(i) => Ok(chats[i])
    }

    /** `getAllChats`. */
    function GetAllChats(): (r: seq<ChatPreview>)
      reads this
      ensures r == ChatList(chats)
    {
      ChatList(chats)
    }

    /** `chat.save()` for a loaded chat: its record replaces the stored one. */
    method Save(doc: ChatDocument, i: nat)
      requires Valid() && i < |chats| && doc.id == chats[i].id
      modifies this
      ensures Valid()
      ensures chats == old(chats)[i := doc.Record()]
    {
      chats := chats[i := doc.Record()];
    }

    /** `sendMessage`: load the chat, push the user's message, ask for the reply, push it,
        rename the chat on its first exchange, stamp it and save it. */
    method SendMessage(chatId: string, message: string, sentAt: int, repliedAt: int, stampedAt: int,
                       pdfs: PdfStore, env: ChatService.ChatEnv, llm: seq<PromptMessage> -> Result<string>)
      returns (reply: Result<SentChat>)
      requires Valid()
      modifies this
      ensures Valid()
      ensures (reply, chats) == Send(old(chats), chatId, message, sentAt, repliedAt, stampedAt, pdfs, env, llm)
    {
      var found := Find(chats, chatId);
      if found.None? {
        return Err(ChatNotFoundMessage);
      }
      var i := found.value;
      var chat := new ChatDocument.Load(chats[i]);
      chat.Push(Message(User, message, sentAt));
      var aiResponse := ChatService.GenerateChatResponse(chat.messages, chat.pdfId, pdfs, env, llm);
      if aiResponse.Err? {
        return Err(SendFailedMessage);
      }
      chat.Push(Message(Assistant, aiResponse.value, repliedAt));
      if |chat.messages| == 2 {
        chat.title := TitleFrom(message);
      }
      chat.updatedAt := stampedAt;
      Save(chat, i);
      reply := Ok(SentChat(chat.id, chat.messages, chat.title));
    }

    /** `deleteChat`: remove the chat, or answer "Chat not found" (a 404). */
    method DeleteChat(id: string) returns (reply: Result<string>)
      requires Valid()
      modifies this
      ensures Valid()
      ensures reply.Ok? <==> Find(old(chats), id).Some?
      ensures reply.Ok? ==> reply.value == DeletedMessage
      ensures reply.Err? ==> reply.error == ChatNotFoundMessage
      ensures chats == Remove(old(chats), id)
    {
      RemoveExactly(chats, id);
      var found := Find(chats, id);
      if found.None? {
        return Err(ChatNotFoundMessage);
      }
      var i := found.value;
      chats := chats[..i] + chats[i + 1..];
      reply := Ok(DeletedMessage);
    }
  }
}
