/** Per-user chat history: the document collection keyed by username is a map from
    username to the list of (prompt, answer) exchanges stored for that user. */
module ChatHistory {

  /** One stored entry: the user's prompt and the answer given to it. */
  datatype Exchange = Exchange(prompt: string, answer: string)

  /** One entry of the chat-completion history format: a role and its text. */
  datatype Message = Message(role: string, content: string)

  const UserRole: string := "user"
  const AssistantRole: string := "assistant"

  /** The exchanges flattened into alternating user and assistant messages:
      exchange i becomes messages 2i (the prompt) and 2i + 1 (the answer). */
  function Formatted(history: seq<Exchange>): (messages: seq<Message>)
    ensures |messages| == 2 * |history|
    ensures forall i :: 0 <= i < |history| ==>
              messages[2 * i] == Message(UserRole, history[i].prompt)
              && messages[2 * i + 1] == Message(AssistantRole, history[i].answer)
  {
    if history == [] then []
    else [Message(UserRole, history[0].prompt), Message(AssistantRole, history[0].answer)]
         + Formatted(history[1..])
  }

  /** Formatting a history extended by new exchanges extends the formatted history
      by the formatted new exchanges: what is retrieved after an insert is what was
      retrieved before, followed by the new exchanges. */
  lemma {:induction false} FormattedConcat(older: seq<Exchange>, newer: seq<Exchange>)
    ensures Formatted(older + newer) == Formatted(older) + Formatted(newer)
  {
    if older == [] {
      assert older + newer == newer;
    } else {
      assert (older + newer)[1..] == older[1..] + newer;
      FormattedConcat(older[1..], newer);
    }
  }

  class ChatHistoryInterface {
    /** The "history" collection: one document per username holding its exchanges. */
    var histories: map<string, seq<Exchange>>

    /** Wraps a database whose collection may already hold documents. */
    constructor (existing: map<string, seq<Exchange>>)
      ensures histories == existing
    {
      histories := existing;
    }

    /** The stored exchanges of `username`, or none when it has no document. */
    function StoredHistory(username: string): seq<Exchange>
      reads this
    {
      if username in histories then histories[username] else []
    }

    /** Appends the new exchanges, in order, to the user's stored history, creating
        the user's document when it is missing (upsert). No other user changes. */
    method InsertChatHistory(username: string, newChatHistory: seq<Exchange>)
      modifies this
      ensures username in histories
      ensures histories[username] == old(StoredHistory(username)) + newChatHistory
      ensures forall u :: u != username ==> (u in histories <==> u in old(histories))
      ensures forall u :: u != username && u in histories ==> histories[u] == old(histories)[u]
    {
      histories := histories[username := StoredHistory(username) + newChatHistory];
    }

    /** The user's history as alternating user/assistant messages; the empty list
        when the user has no document. */
    method RetrieveChatHistory(username: string) returns (formattedHistory: seq<Message>)
      ensures username !in histories ==> formattedHistory == []
      ensures username in histories ==> formattedHistory == Formatted(histories[username])
    {
      if username in histories {
        var history := histories[username];
        formattedHistory := [];
        for i := 0 to |history|
          invariant formattedHistory == Formatted(history[..i])
        {
          assert history[..i + 1] == history[..i] + [history[i]];
          FormattedConcat(history[..i], [history[i]]);
          formattedHistory := formattedHistory + [Message(UserRole, history[i].prompt)];
          formattedHistory := formattedHistory + [Message(AssistantRole, history[i].answer)];
        }
        assert history[..|history|] == history;
      } else {
        formattedHistory := [];
      }
    }

    /** Deletes the user's document; nothing happens when there is none. No other
        user changes. */
    method ClearChatHistory(username: string)
      modifies this
      ensures username !in histories
      ensures histories == old(histories) - {username}
      ensures username !in old(histories) ==> histories == old(histories)
    {
      histories := histories - {username};
    }
  }

  /** The exchanges the module's example stores for its one user, "boss". */
  const ExampleHistory: seq<Exchange> := [Exchange("hi", "yes"), Exchange("s", "yes"), Exchange("a", "aaaa")]

  /** The two inserts of the module's example, into a database that may already hold
      documents: one exchange, then two more, appended to what "boss" had. */
  method ExampleInserts(existing: map<string, seq<Exchange>>) returns (chat: ChatHistoryInterface)
    ensures fresh(chat)
    ensures chat.histories == existing["boss" := (if "boss" in existing then existing["boss"] else []) + ExampleHistory]
    ensures existing == map[] ==> chat.histories == map["boss" := ExampleHistory]
  {
    chat := new ChatHistoryInterface(existing);
    chat.InsertChatHistory("boss", [Exchange("hi", "yes")]);
    chat.InsertChatHistory("boss", [Exchange("s", "yes"), Exchange("a", "aaaa")]);
    ghost var prior := if "boss" in existing then existing["boss"] else [];
    assert chat.histories["boss"] == prior + ExampleHistory;
    assert chat.histories.Keys == existing.Keys + {"boss"};
    if existing == map[] {
      assert prior + ExampleHistory == ExampleHistory;
      assert chat.histories.Keys == {"boss"} && chat.histories["boss"] == ExampleHistory;
    }
  }

  /** The example history formats as the six messages the module's example prints. */
  lemma ExampleFormatted()
    ensures Formatted(ExampleHistory) == [Message("user", "hi"), Message("assistant", "yes"),
                                          Message("user", "s"), Message("assistant", "yes"),
                                          Message("user", "a"), Message("assistant", "aaaa")]
  {
  }

  /** The rest of the module's example on the store the inserts built: a retrieval that
      sees the user's exchanges in order, a clear, a retrieval that sees nothing, and a
      second clear of the now absent user. */
  method ExampleSession(chat: ChatHistoryInterface) returns (before: seq<Message>, after: seq<Message>)
    requires "boss" in chat.histories
    modifies chat
    ensures before == Formatted(old(chat.histories)["boss"])
    ensures old(chat.histories)["boss"] == ExampleHistory ==>
              before == [Message("user", "hi"), Message("assistant", "yes"),
                         Message("user", "s"), Message("assistant", "yes"),
                         Message("user", "a"), Message("assistant", "aaaa")]
    ensures after == []
    ensures chat.histories == old(chat.histories) - {"boss"}
    ensures old(chat.histories) == map["boss" := ExampleHistory] ==> chat.histories == map[]
  {
    before := chat.RetrieveChatHistory("boss");
    ExampleFormatted();
    chat.ClearChatHistory("boss");
    after := chat.RetrieveChatHistory("boss");
    chat.ClearChatHistory("boss");
  }
}
