/** The customer chat state of src/hooks/useChat.ts: the list of chat messages, sending a
    question (validated, optionally with an uploaded file, answered by the FAQ engine and
    stored), and marking an answer as unsatisfying, which escalates it to a ticket. The store
    and the file storage are parameters that say how each call went. */
module Chat {
  import opened Wrappers
  import opened Text
  import opened Auth
  import Orders
  import Faq

  /** A row of the `chats` table. */
  datatype ChatMessage = ChatMessage(id: string, userPhone: string, question: string,
                                     botResponse: Option<string>, fileUrl: Option<string>,
                                     isUnsatisfied: bool, resolved: bool, createdAt: string)

  /** The text stored and shown in place of an empty question sent with a file. */
  const FileUploaded := "File uploaded"

  // ---------------------------------------------------------------- escalation helpers

  /** The ticket title: the question when it has at most fifty characters, otherwise its
      first fifty characters followed by an ellipsis. */
  function TicketTitle(question: string): (title: string)
    ensures |title| <= 53 && |title| <= |question| + 3
    ensures |question| <= 50 ==> title == question
    ensures |question| > 50 ==> |title| == 53 && title[..50] == question[..50] && title[50..] == "..."
  {
    if |question| > 50 then question[..50] + "..." else question
  }

  /** A title is its own title: a truncated one has 53 characters and ends in the same
      ellipsis that truncation would add. */
  lemma TicketTitleIdempotent(question: string)
    ensures TicketTitle(TicketTitle(question)) == TicketTitle(question)
  {
    var t := TicketTitle(question);
    if |question| > 50 {
      assert t[..50] + "..." == t;
    }
  }

  /** The local update after escalation: every message with that id gets the flag, every
      other message is kept as it was, in the same order. */
  function MarkUnsatisfied(msgs: seq<ChatMessage>, chatId: string): (r: seq<ChatMessage>)
    ensures |r| == |msgs|
    ensures forall i :: 0 <= i < |msgs| && msgs[i].id != chatId ==> r[i] == msgs[i]
    ensures forall i :: 0 <= i < |msgs| && msgs[i].id == chatId ==> r[i] == msgs[i].(isUnsatisfied := true)
  {
    if msgs == [] then []
    else
      [if msgs[0].id == chatId then msgs[0].(isUnsatisfied := true) else msgs[0]]
      + MarkUnsatisfied(msgs[1..], chatId)
  }

  /** Marking twice is marking once. */
  lemma MarkUnsatisfiedIdempotent(msgs: seq<ChatMessage>, chatId: string)
    ensures MarkUnsatisfied(MarkUnsatisfied(msgs, chatId), chatId) == MarkUnsatisfied(msgs, chatId)
  {
    var once := MarkUnsatisfied(msgs, chatId);
    var twice := MarkUnsatisfied(once, chatId);
    assert forall i :: 0 <= i < |msgs| ==> twice[i] == once[i];
  }

  /** `messages.find(m => m.id === chatId)`, as an index. */
  function FindMessage(msgs: seq<ChatMessage>, chatId: string): (r: Option<nat>)
    ensures r.Some? ==> r.value < |msgs| && msgs[r.value].id == chatId
    ensures r.Some? ==> forall j :: 0 <= j < r.value ==> msgs[j].id != chatId
    ensures r.None? ==> forall j :: 0 <= j < |msgs| ==> msgs[j].id != chatId
  {
    if msgs == [] then None
    else if msgs[0].id == chatId then Some(0)
    else match FindMessage(msgs[1..], chatId)
      case Some(k) => Some(k + 1)
      case None => None
  }

  // ---------------------------------------------------------------- question defaulting

  /** `question || 'File uploaded'`: the text the answer engine searches. Only the empty
      string is replaced, so a blank question sent with a file is searched as it is. */
  function SearchInput(question: string): (r: string)
    ensures r != []
    ensures question != [] ==> r == question
    ensures question == [] ==> r == FileUploaded
  {
    if question == [] then FileUploaded else question
  }

  /** `question.trim() || 'File uploaded'`: the question as it is stored. */
  function StoredQuestion(question: string): (r: string)
    ensures r != []
    ensures !IsBlank(question) ==> r == Trim(question)
    ensures IsBlank(question) ==> r == FileUploaded
  {
    var t := Trim(question);
    if t == [] then FileUploaded else t
  }

  // ---------------------------------------------------------------- the hook's state

  datatype SendError = InvalidInput | UploadFailed | DatabaseError | NoDataReturned

  /** How the insert into `chats` went: an error, no row returned, or the row's generated
      id and creation time. */
  datatype ChatWrite = WriteFailed | NoRow | Row(id: string, createdAt: string)

  datatype SendOutcome = Sent(message: ChatMessage) | Rejected(error: SendError)

  datatype UnsatisfiedError = ChatNotFound | UpdateFailed

  /** The two rows escalation inserts: the unsatisfied query and the ticket. */
  datatype Escalation = Escalation(chatId: string, userPhone: string, fileUrl: Option<string>, title: string)

  datatype MarkOutcome = Escalated(escalation: Escalation) | NotEscalated(error: UnsatisfiedError)

  class ChatSession {
    var messages: seq<ChatMessage>
    var isTyping: bool

    constructor ()
      ensures messages == [] && !isTyping
    {
      messages := [];
      isTyping := false;
    }

    /** `sendMessage(question, file)`. `hasFile` says whether a file was given, `upload` is
        the public URL the storage returned for it (none when the upload failed), `orders`
        and `faqStore` answer the engine's two reads, and `write` the insert. Only a
        stored row reaches the list, at its end; any failure leaves the list as it was. */
    method SendMessage(user: Option<User>, question: string, hasFile: bool, upload: Option<string>,
                       orders: Lookup<Orders.Order>, faqStore: Lookup<Faq.FaqEntry>,
                       formatDate: string -> string, write: ChatWrite)
      returns (outcome: SendOutcome)
      modifies this
      ensures outcome == Rejected(InvalidInput) <==> ActivePhone(user).None? || (IsBlank(question) && !hasFile)
      ensures outcome == Rejected(InvalidInput) ==> isTyping == old(isTyping)
      ensures outcome != Rejected(InvalidInput) ==> !isTyping
      ensures outcome == Rejected(UploadFailed) <==>
        ActivePhone(user).Some? && !(IsBlank(question) && !hasFile) && hasFile && upload.None?
      ensures outcome == Rejected(DatabaseError) <==>
        ActivePhone(user).Some? && !(IsBlank(question) && !hasFile) && !(hasFile && upload.None?) && write.WriteFailed?
      ensures outcome == Rejected(NoDataReturned) <==>
        ActivePhone(user).Some? && !(IsBlank(question) && !hasFile) && !(hasFile && upload.None?) && write.NoRow?
      ensures outcome.Sent? <==>
        ActivePhone(user).Some? && !(IsBlank(question) && !hasFile) && !(hasFile && upload.None?) && write.Row?
      ensures outcome.Rejected? ==> messages == old(messages)
      ensures outcome.Sent? ==> write.Row? && messages == old(messages) + [outcome.message]
      ensures outcome.Sent? ==>
        var m := outcome.message;
        && m.id == write.id && m.createdAt == write.createdAt
        && m.userPhone == ActivePhone(user).value
        && m.question == StoredQuestion(question)
        && m.botResponse == Some(Faq.ChatReply(SearchInput(question), ActivePhone(user), orders, faqStore, formatDate))
        && m.fileUrl == (if hasFile then upload else None)
        && !m.isUnsatisfied && !m.resolved
    {
      var phone := ActivePhone(user);
      if phone.None? || (Trim(question) == [] && !hasFile) {
        return Rejected(InvalidInput);
      }
      isTyping := true;

      var fileUrl: Option<string> := None;
      if hasFile {
        if upload.None? {
          isTyping := false;
          return Rejected(UploadFailed);
        }
        fileUrl := upload;
      }

      var botResponse := Faq.SearchFaqs(SearchInput(question), phone, orders, faqStore, formatDate);

      match write {
        case WriteFailed =>
          outcome := Rejected(DatabaseError);
        case NoRow =>
          outcome := Rejected(NoDataReturned);
        case Row(id, createdAt) =>
          var row := ChatMessage(id, phone.value, StoredQuestion(question), Some(botResponse),
                                 fileUrl, false, false, createdAt);
          messages := messages + [row];
          outcome := Sent(row);
      }
      isTyping := false;
    }

    /** `markAsUnsatisfied(chatId)`: an unknown id or a failed update of the chat row stops
        with an error and nothing changes locally; otherwise the escalation rows are built
        from the first message with that id and every message with that id is flagged.
        `updateOk` says whether the update of the chat row succeeded. */
    method MarkAsUnsatisfied(chatId: string, updateOk: bool) returns (outcome: MarkOutcome)
      modifies this`messages
      ensures outcome == NotEscalated(ChatNotFound) <==> FindMessage(old(messages), chatId).None?
      ensures outcome == NotEscalated(UpdateFailed) <==> FindMessage(old(messages), chatId).Some? && !updateOk
      ensures outcome.NotEscalated? ==> messages == old(messages)
      ensures outcome.Escalated? ==>
        var chat := old(messages)[FindMessage(old(messages), chatId).value];
        && outcome.escalation == Escalation(chatId, chat.userPhone, chat.fileUrl, TicketTitle(chat.question))
        && messages == MarkUnsatisfied(old(messages), chatId)
    {
      var found := FindMessage(messages, chatId);
      if found.None? {
        return NotEscalated(ChatNotFound);
      }
      var chat := messages[found.value];
      if !updateOk {
        return NotEscalated(UpdateFailed);
      }
      outcome := Escalated(Escalation(chatId, chat.userPhone, chat.fileUrl, TicketTitle(chat.question)));
      messages := MarkUnsatisfied(messages, chatId);
    }
  }
}
