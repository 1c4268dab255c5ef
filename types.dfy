/** Values shared by the components of the Document-Chat front end. */
module Types {

  datatype Option<+T> = None | Some(value: T)

  /** What an awaited server call produced. `Threw` stands for a rejected
      `fetch` or a body that could not be parsed; `Answered` carries the
      response's `ok` flag and the parsed body. */
  datatype Reply<+T> = Threw | Answered(ok: bool, body: T)

  /** `MessageTypes` of the source: 'AIMessage' and 'HumanMessage'. */
  datatype MessageType = AI | HUMAN

  datatype ChatMessage = ChatMessage(kind: MessageType, content: string)

  /** A session as the server reports it. */
  datatype Session = Session(documents: seq<string>, conversation: seq<ChatMessage>, sessionCookie: string)

  /** A locally selected or dropped file; its bytes are opaque. */
  datatype File = File(name: string)

  /** The message `postMessage` appends for the visitor's input. */
  function HumanMessage(text: string): (m: ChatMessage)
  {
    ChatMessage(HUMAN, text)
  }
}
