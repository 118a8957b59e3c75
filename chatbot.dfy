/** The floating chatbot: a conversation that opens with a greeting, where
    each non-blank message the visitor sends is appended trimmed and is
    followed by exactly one bot message, the webhook's reply or a fixed
    text. */
module Chatbot {
  import opened Wrappers
  import opened JsString

  const Greeting := "¡Hola! Soy Pushi, tu asistente virtual de Ocean. ¿En qué puedo ayudarte hoy?"
  const Apology := "Lo siento, no pude procesar tu mensaje."
  const ConnectionError := "Lo siento, hubo un error al conectar con el servidor. Por favor intenta de nuevo."

  datatype Sender = User | Bot

  /** A chat message; its timestamp is not part of this model. */
  datatype Message = Message(id: string, text: string, sender: Sender)

  /** The webhook's answer: the request or the JSON parse failed, or the
      body's `response` and `message` fields (None when absent). */
  datatype Reply = Failed | Answered(response: Option<string>, message: Option<string>)

  /** The text of the bot message that answers a reply:
      `data.response || data.message || apology`, or the connection error. */
  function BotText(reply: Reply): (r: string)
    ensures r != ""
    ensures reply.Failed? ==> r == ConnectionError
    ensures reply.Answered? && Present(reply.response) ==> r == reply.response.value
    ensures reply.Answered? && !Present(reply.response) && Present(reply.message) ==> r == reply.message.value
    ensures reply.Answered? && !Present(reply.response) && !Present(reply.message) ==> r == Apology
  {
    match reply
    case Failed => ConnectionError
    case Answered(response, message) =>
      if Present(response) then response.value
      else if Present(message) then message.value
      else Apology
  }

  /** The conversation so far: the greeting, then for each message the
      visitor sent, that message followed by one bot message. */
  ghost predicate Alternating(ms: seq<Message>)
  {
    && |ms| % 2 == 1
    && ms[0].sender == Bot
    && forall k :: 0 < k < |ms| ==> ms[k].sender == (if k % 2 == 1 then User else Bot)
  }

  /** A visitor message followed by a bot message keeps the alternation. */
  lemma AlternatingExtend(ms: seq<Message>, u: Message, b: Message)
    requires Alternating(ms) && u.sender == User && b.sender == Bot
    ensures Alternating(ms + [u]  + [b])
  {
    var r := ms + [u] + [b];
    forall k | 0 < k < |r|
      ensures r[k].sender == (if k % 2 == 1 then User else Bot)
    {
      if k == |ms| {
        assert r[k] == u;
      } else if k == |ms| + 1 {
        assert r[k] == b;
      } else {
        assert r[k] == ms[k];
      }
    }
  }

  class ChatWindow {
    var messages: seq<Message>
    var inputValue: string
    var isLoading: bool

    /** Outside a send the conversation alternates; during one the visitor's
        message has been appended and waits for its answer. */
    ghost predicate Valid()
      reads this
    {
      && |messages| > 0
      && (!isLoading ==> Alternating(messages))
      && (isLoading ==> Alternating(messages[..|messages| - 1]) && messages[|messages| - 1].sender == User)
    }

    constructor ()
      ensures messages == [Message("1", Greeting, Bot)]
      ensures inputValue == "" && !isLoading && Valid()
    {
      messages := [Message("1", Greeting, Bot)];
      inputValue := "";
      isLoading := false;
    }

    /** The input's `onChange`. */
    method Type(value: string)
      modifies this
      ensures inputValue == value && messages == old(messages) && isLoading == old(isLoading)
    {
      inputValue := value;
    }

    /** The first half of `sendMessage`, up to the request: blank text
        changes nothing and sends nothing; otherwise the trimmed text is
        appended as the visitor's message (id from the clock reading
        `now`), the input is cleared, loading is set, and the trimmed text
        is what the request carries. */
    method Begin(text: string, now: nat) returns (request: Option<string>)
      requires Valid() && !isLoading
      modifies this
      ensures Valid()
      ensures AllSpace(text) ==> request == None && unchanged(this)
      ensures !AllSpace(text) ==>
                && request == Some(Trim(text))
                && messages == old(messages) + [Message(Decimal(now), Trim(text), User)]
                && inputValue == "" && isLoading
      ensures request.Some? ==> request.value != "" && !IsSpace(request.value[0])
                                && !IsSpace(request.value[|request.value| - 1])
    {
      TrimEmptyIff(text);
      if Trim(text) == "" {
        return None;
      }
      var userMessage := Message(Decimal(now), Trim(text), User);
      messages := messages + [userMessage];
      assert messages[..|messages| - 1] == old(messages);
      inputValue := "";
      isLoading := true;
      request := Some(Trim(text));
    }

    /** The second half: the one bot message that answers the reply (id
        from the clock reading `now` plus one), then loading is cleared. */
    method Finish(reply: Reply, now: nat)
      requires Valid() && isLoading
      modifies this
      ensures Valid() && !isLoading && inputValue == old(inputValue)
      ensures messages == old(messages) + [Message(Decimal(now + 1), BotText(reply), Bot)]
    {
      var botMessage := Message(Decimal(now + 1), BotText(reply), Bot);
      var before := messages[..|messages| - 1];
      assert messages == before + [messages[|messages| - 1]];
      AlternatingExtend(before, messages[|messages| - 1], botMessage);
      messages := messages + [botMessage];
      isLoading := false;
    }

    /** `sendMessage` run to completion, with the webhook's reply and the
        two clock readings as parameters: the conversation grows by the
        visitor's message and its one answer, or not at all. */
    method SendMessage(text: string, sentAt: nat, answeredAt: nat, reply: Reply) returns (request: Option<string>)
      requires Valid() && !isLoading
      modifies this
      ensures Valid() && !isLoading
      ensures AllSpace(text) ==> request == None && unchanged(this)
      ensures !AllSpace(text) ==>
                && request == Some(Trim(text))
                && messages == old(messages) + [Message(Decimal(sentAt), Trim(text), User),
                                                Message(Decimal(answeredAt + 1), BotText(reply), Bot)]
                && inputValue == ""
    {
      request := Begin(text, sentAt);
      if request.Some? {
        Finish(reply, answeredAt);
      }
    }

    /** `handleKeyPress`: Enter without Shift sends the input; any other
        key, and Shift+Enter, changes nothing. */
    method KeyPress(key: string, shiftKey: bool, sentAt: nat, answeredAt: nat, reply: Reply)
      returns (request: Option<string>)
      requires Valid() && !isLoading
      modifies this
      ensures Valid() && !isLoading
      ensures !(key == "Enter" && !shiftKey) ==> request == None && unchanged(this)
      ensures key == "Enter" && !shiftKey && !AllSpace(old(inputValue)) ==>
                && request == Some(Trim(old(inputValue)))
                && messages == old(messages) + [Message(Decimal(sentAt), Trim(old(inputValue)), User),
                                                Message(Decimal(answeredAt + 1), BotText(reply), Bot)]
                && inputValue == ""
      ensures key == "Enter" && !shiftKey && AllSpace(old(inputValue)) ==> request == None && unchanged(this)
    {
      request := None;
      if key == "Enter" && !shiftKey {
        request := SendMessage(inputValue, sentAt, answeredAt, reply);
      }
    }
  }
}
