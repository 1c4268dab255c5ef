/** The `Chat` component: the transcript, the text input and the
    `awaitingResponse` flag, plus the `dotDotDot` helper. */
module Conversation {
  import opened Types

  /** `dotDotDot`: text longer than three characters starts over at ".",
      anything else grows by one ".". */
  function DotDotDot(text: string): (r: string)
    ensures 1 <= |r| <= 4 && r[|r| - 1] == '.'
    ensures |text| > 3 ==> |r| == 1
    ensures |text| <= 3 ==> |r| == |text| + 1 && r[..|text|] == text
  {
    if |text| > 3 then "." else text + "."
  }

  /** A string of `n` dots. */
  function Dots(n: nat): (r: string)
    ensures |r| == n && forall i :: 0 <= i < n ==> r[i] == '.'
  {
    if n == 0 then "" else Dots(n - 1) + "."
  }

  /** The text after `k` applications of `DotDotDot`, starting from ".". */
  function Animate(k: nat): (text: string)
  {
    if k == 0 then "." else DotDotDot(Animate(k - 1))
  }

  /** Iterating `DotDotDot` from "." runs ".", "..", "...", "...." and
      back to ".". */
  lemma {:induction false} AnimationCycles(k: nat)
    ensures Animate(k) == Dots(k % 4 + 1)
  {
    if k > 0 {
      AnimationCycles(k - 1);
      var m := (k - 1) % 4;
      assert k % 4 == if m == 3 then 0 else m + 1;
      if m == 3 {
        assert |Dots(4)| > 3;
        assert Dots(1) == ".";
      } else {
        assert Dots(m + 1) + "." == Dots(m + 2);
      }
    }
  }

  /** Iterating `DotDotDot` from "." has period four. */
  lemma AnimationPeriod(k: nat)
    ensures Animate(k + 4) == Animate(k)
  {
    AnimationCycles(k);
    AnimationCycles(k + 4);
    assert (k + 4) % 4 == k % 4;
  }

  datatype Preset = Preset(title: string, content: string)

  /** The canned questions offered above the input. */
  const Presets: seq<Preset> := [
    Preset("Plaintiff Position", "What is the plaintiff's position"),
    Preset("Defendant Position", "What is the defendant's position?"),
    Preset("Case Summary", "Give me a summary of the case."),
    Preset("Party Demands", "What do the parties demand?"),
    Preset("Case Participants ", "Who are the case Participants?")
  ]

  class Chat {
    var messages: seq<ChatMessage>
    /** The text input. */
    var message: string
    var awaitingResponse: bool

    constructor (sessionMessages: seq<ChatMessage>)
      ensures messages == sessionMessages && message == "" && !awaitingResponse
    {
      messages := sessionMessages;
      message := "";
      awaitingResponse := false;
    }

    /** Typing into the input. */
    method SetInput(text: string)
      modifies this`message
      ensures message == text
    {
      message := text;
    }

    /** `postMessage` up to the request: an empty input changes nothing and
        sends nothing; otherwise the input is appended as one HUMAN message,
        the input is cleared, `awaitingResponse` is raised and the former
        input is what is sent. */
    method PostMessage() returns (sent: Option<string>)
      modifies this`messages, this`message, this`awaitingResponse
      ensures old(message) == "" ==>
                sent == None && messages == old(messages) && message == old(message) &&
                awaitingResponse == old(awaitingResponse)
      ensures old(message) != "" ==>
                sent == Some(old(message)) && messages == old(messages) + [HumanMessage(old(message))] &&
                message == "" && awaitingResponse
    {
      if message == "" {
        return None;
      }
      sent := Some(message);
      messages := messages + [HumanMessage(message)];
      message := "";
      awaitingResponse := true;
    }

    /** `postMessage` after the request: only an `ok` response with a parsed
        body appends that message and lowers `awaitingResponse`; a not-ok
        response or a thrown call appends nothing and leaves the flag up. */
    method ChatReply(reply: Reply<ChatMessage>)
      modifies this`messages, this`awaitingResponse
      ensures reply.Answered? && reply.ok ==> messages == old(messages) + [reply.body] && !awaitingResponse
      ensures !(reply.Answered? && reply.ok) ==>
                messages == old(messages) && awaitingResponse == old(awaitingResponse)
    {
      if reply.Answered? && reply.ok {
        awaitingResponse := false;
        messages := messages + [reply.body];
      }
    }

    /** A whole `postMessage` with nothing else happening before the reply:
        the transcript before submission plus the HUMAN message is a prefix
        of the result, followed by at most the one server message. */
    method Ask(reply: Reply<ChatMessage>) returns (sent: Option<string>)
      modifies this`messages, this`message, this`awaitingResponse
      ensures old(message) == "" ==>
                sent == None && messages == old(messages) && message == old(message) &&
                awaitingResponse == old(awaitingResponse)
      ensures old(message) != "" ==>
                sent == Some(old(message)) && message == "" &&
                old(messages) + [HumanMessage(old(message))] <= messages &&
                (reply.Answered? && reply.ok ==> messages == old(messages) + [HumanMessage(old(message)), reply.body] && !awaitingResponse) &&
                (!(reply.Answered? && reply.ok) ==> messages == old(messages) + [HumanMessage(old(message))] && awaitingResponse)
    {
      sent := PostMessage();
      if sent.Some? {
        ChatReply(reply);
      }
    }

    /** Clicking a preset only fills the input with its question. */
    method SelectPreset(i: nat)
      requires i < |Presets|
      modifies this`message
      ensures message == Presets[i].content
    {
      message := Presets[i].content;
    }

    /** The effect on `sessionMessages`: the transcript is replaced wholesale,
        optimistic messages included. */
    method SessionMessagesChanged(sessionMessages: seq<ChatMessage>)
      modifies this`messages
      ensures messages == sessionMessages
    {
      messages := sessionMessages;
    }
  }

  /** Asking "Hello" on an empty transcript and getting an answer yields the
      two messages in order. */
  method AskScenario(answer: ChatMessage)
  {
    var c := new Chat([]);
    c.SetInput("Hello");
    var sent := c.Ask(Answered(true, answer));
    assert sent == Some("Hello");
    assert c.messages == [HumanMessage("Hello"), answer] && c.message == "" && !c.awaitingResponse;
  }
}
