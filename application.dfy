/** The top-level App component: the adopted session, the notification
    signal, and the inlined document and chat components it renders. */
module Application {
  import opened Types
  import opened Identity
  import Conversation
  import opened Documents

  /** The chat component as inlined in the App file. Unlike the separate chat
      component it never changes `awaitingResponse`, and a preset click
      submits its question directly. */
  class InlineChat {
    var messages: seq<ChatMessage>
    /** The text input. */
    var message: string

    constructor (sessionMessages: seq<ChatMessage>)
      ensures messages == sessionMessages && message == ""
    {
      messages := sessionMessages;
      message := "";
    }

    /** Typing into the input. */
    method SetInput(text: string)
      modifies this`message
      ensures message == text
    {
      message := text;
    }

    /** `postMessage` up to the request: an empty input changes nothing;
        otherwise one HUMAN message with the input is appended, the input is
        cleared, and the former input is what is sent. */
    method PostMessage() returns (sent: Option<string>)
      modifies this`messages, this`message
      ensures old(message) == "" ==> sent == None && messages == old(messages) && message == old(message)
      ensures old(message) != "" ==>
                sent == Some(old(message)) && messages == old(messages) + [HumanMessage(old(message))] && message == ""
    {
      if message == "" {
        return None;
      }
      sent := Some(message);
      messages := messages + [HumanMessage(message)];
      message := "";
    }

    /** `postMessageDirect` from a preset button: the preset's question is
        appended as a HUMAN message and sent, whatever the input held; the
        input is cleared. */
    method PostPreset(i: nat) returns (sent: Option<string>)
      requires i < |Conversation.Presets|
      modifies this`messages, this`message
      ensures sent == Some(Conversation.Presets[i].content)
      ensures messages == old(messages) + [HumanMessage(Conversation.Presets[i].content)] && message == ""
    {
      var content := Conversation.Presets[i].content;
      if content == "" {
        return None;
      }
      sent := Some(content);
      messages := messages + [HumanMessage(content)];
      message := "";
    }

    /** After the request: only an `ok` response appends the parsed message;
        anything else leaves the transcript as it is. */
    method ChatReply(reply: Reply<ChatMessage>)
      modifies this`messages
      ensures reply.Answered? && reply.ok ==> messages == old(messages) + [reply.body]
      ensures !(reply.Answered? && reply.ok) ==> messages == old(messages)
    {
      if reply.Answered? && reply.ok {
        messages := messages + [reply.body];
      }
    }

    /** The effect on `sessionMessages`: the transcript is replaced wholesale. */
    method SessionMessagesChanged(sessionMessages: seq<ChatMessage>)
      modifies this`messages
      ensures messages == sessionMessages
    {
      messages := sessionMessages;
    }
  }

  class App {
    /** The adopted session; `None` is `undefined`. */
    var session: Option<Session>
    var notificationSignal: string
    var conversation: seq<ChatMessage>
    const docs: DocumentUpload
    const chat: InlineChat

    /** Initial state after the first render's session effect has run. */
    constructor ()
      ensures session == Some(Session([], [], "")) && notificationSignal == "" && conversation == []
      ensures fresh(docs) && fresh(chat)
      ensures docs.uploadedDocs == [] && docs.stagedFiles == [] && !docs.loading
      ensures chat.messages == [] && chat.message == ""
    {
      session := Some(Session([], [], ""));
      notificationSignal := "";
      conversation := [];
      docs := new DocumentUpload([]);
      chat := new InlineChat([]);
    }

    /** Carries out the state part of a reply handler's action. Adopting a
        session publishes its documents and transcript as the new baseline
        (the session effect and the chat's `sessionMessages` effect); staged
        files and the chat input survive. Adopting `undefined` only sets the
        session. Request actions change no state here. */
    method Perform(a: Action)
      modifies this, docs, chat
      ensures docs.stagedFiles == old(docs.stagedFiles) && docs.loading == old(docs.loading)
      ensures chat.message == old(chat.message)
      ensures a.AdoptSession? && a.session.Some? ==>
                session == a.session && docs.uploadedDocs == a.session.value.documents &&
                conversation == a.session.value.conversation && chat.messages == a.session.value.conversation &&
                notificationSignal == old(notificationSignal)
      ensures a.AdoptSession? && a.session.None? ==>
                session == None && docs.uploadedDocs == old(docs.uploadedDocs) &&
                conversation == old(conversation) && chat.messages == old(chat.messages) &&
                notificationSignal == old(notificationSignal)
      ensures a.SetDocuments? ==>
                docs.uploadedDocs == a.documents && session == old(session) &&
                conversation == old(conversation) && chat.messages == old(chat.messages) &&
                notificationSignal == old(notificationSignal)
      ensures a.Notify? ==>
                notificationSignal == a.notice && session == old(session) && docs.uploadedDocs == old(docs.uploadedDocs) &&
                conversation == old(conversation) && chat.messages == old(chat.messages)
      ensures a.Nothing? || a.RegisterVisitor? || a.CreateSession? ==>
                notificationSignal == old(notificationSignal) && session == old(session) &&
                docs.uploadedDocs == old(docs.uploadedDocs) &&
                conversation == old(conversation) && chat.messages == old(chat.messages)
    {
      match a {
        case AdoptSession(adopted) =>
          session := adopted;
          if adopted.Some? {
            docs.SetUploadedDocs(adopted.value.documents);
            conversation := adopted.value.conversation;
            chat.SessionMessagesChanged(adopted.value.conversation);
          }
        case SetDocuments(documents) =>
          docs.SetUploadedDocs(documents);
        case Notify(notice) =>
          notificationSignal := notice;
        case _ =>
      }
    }
  }

  /** A known visitor whose cookie names the one session the server reports
      ends with that session's documents and transcript on screen. */
  method ResolveScenario(s: Session)
    requires s.sessionCookie != ""
  {
    var app := new App();
    var a := SetVisitor(Some(s.sessionCookie), [s]);
    AdoptsUniqueMatch(s.sessionCookie, [s], 0);
    app.Perform(a);
    assert app.session == Some(s) && app.docs.uploadedDocs == s.documents && app.chat.messages == s.conversation;
  }
}
