/**
  The chat widget's state: the transcript, the text being typed, whether a
  request is in flight, and whether the last request failed to connect; and
  the transitions that change it: opening the widget, typing, sending, and
  clearing. Rendering, scrolling and the clock are not modelled; message ids
  are built from times passed in.
 */
module Chatbot {
  import opened JsStrings
  import opened Wrappers
  import GeminiService

  datatype Role = User | Model

  /** `"initial"` for the welcome message, else the decimal string of a
      millisecond time stamp. */
  datatype MessageId = Initial | Stamp(millis: int)

  datatype ChatMessage = ChatMessage(id: MessageId, role: Role, text: string)

  const WelcomeText: string := "Hi there! I'm your creative assistant. Ask me for fun coloring book ideas!"
  const ApologyText: string := "I'm having trouble connecting right now. Please check your internet connection and try again."

  const Welcome: ChatMessage := ChatMessage(Initial, Model, WelcomeText)

  /** The message appended when a response settles: the reply text, or the
      apology when the response promise rejected. */
  function ReplyMessage(response: GeminiService.ChatResponse, now: int): (m: ChatMessage)
    ensures m.role == Model && m.id == Stamp(now + 1)
    ensures m.text == if response.Resolved? then response.text else ApologyText
  {
    match response
    case Resolved(text) => ChatMessage(Stamp(now + 1), Model, text)
    case Rejected => ChatMessage(Stamp(now + 1), Model, ApologyText)
  }

  /** Whether a send is accepted: the input has a non-whitespace character
      and no request is in flight. */
  method SendAccepted(input: string, isLoading: bool) returns (ok: bool)
    ensures ok <==> !AllWhitespace(input) && !isLoading
  {
    TrimEmptyIff(input);
    ok := !(Trim(input) == "" || isLoading);
  }

  class ChatWidget {
    /** The `isOpen` property the widget is rendered with. */
    var isOpen: bool
    var messages: seq<ChatMessage>
    var input: string
    var isLoading: bool
    var connectionError: bool

    /** Once there is a transcript it starts with the welcome message, and
        while the widget is open or a request is in flight there is one. */
    ghost predicate Valid()
      reads this
    {
      && (isOpen || isLoading ==> |messages| > 0)
      && (|messages| > 0 ==> messages[0] == Welcome)
    }

    /** Mounting: empty state, then the open effect runs once. */
    constructor (isOpen: bool)
      ensures Valid()
      ensures this.isOpen == isOpen && messages == (if isOpen then [Welcome] else [])
      ensures input == "" && !isLoading && !connectionError
    {
      this.isOpen := isOpen;
      messages := [];
      input := "";
      isLoading := false;
      connectionError := false;
      new;
      if isOpen && |messages| == 0 {
        messages := [Welcome];
      }
    }

    /** A new `isOpen` property; the open effect runs when it changed, and
        seeds the welcome message into an empty transcript. */
    method SetOpen(open: bool)
      requires Valid()
      modifies this
      ensures Valid()
      ensures isOpen == open
      ensures messages == if open && old(messages) == [] then [Welcome] else old(messages)
      ensures input == old(input) && isLoading == old(isLoading) && connectionError == old(connectionError)
    {
      if open != isOpen {
        isOpen := open;
        if isOpen && |messages| == 0 {
          messages := [Welcome];
        }
      }
    }

    /** Typing into the input field, which is shown only while the widget is
        open and is disabled while a request is in flight. */
    method Type(text: string)
      requires Valid() && isOpen && !isLoading
      modifies this`input
      ensures Valid() && input == text
    {
      input := text;
    }

    /** The synchronous part of `handleSend`, up to the request: ignored when
        the input is blank or a request is in flight; otherwise appends the
        raw input as a user message stamped `now`, clears the input, sets
        loading and clears the connection error. Returns whether the send
        went ahead and the text to send. */
    method BeginSend(now: int) returns (accepted: bool, message: string)
      requires Valid() && isOpen
      modifies this
      ensures Valid()
      ensures accepted <==> !AllWhitespace(old(input)) && !old(isLoading)
      ensures accepted ==> && message == old(input)
                           && messages == old(messages) + [ChatMessage(Stamp(now), User, old(input))]
                           && input == "" && isLoading && !connectionError
      ensures !accepted ==> && messages == old(messages) && input == old(input)
                            && isLoading == old(isLoading) && connectionError == old(connectionError)
      ensures isOpen == old(isOpen)
    {
      var typed := input;
      accepted := SendAccepted(typed, isLoading);
      if !accepted {
        return false, "";
      }
      message := typed;
      var sent := ChatMessage(Stamp(now), User, typed);
      messages := messages + [sent];
      input := "";
      isLoading := true;
      connectionError := false;
    }

    /** The rest of `handleSend`, once the response settled at time `now`:
        appends the reply, or on a rejection the apology and the connection
        error; loading ends either way. The transcript may have been cleared
        in between, so only what is appended is fixed. It runs only after an
        accepted `BeginSend`, while loading is still set. */
    method FinishSend(response: GeminiService.ChatResponse, now: int)
      requires Valid() && isLoading
      modifies this
      ensures Valid()
      ensures messages == old(messages) + [ReplyMessage(response, now)]
      ensures connectionError == (response.Rejected? || old(connectionError))
      ensures !isLoading
      ensures input == old(input) && isOpen == old(isOpen)
    {
      if response.Rejected? {
        connectionError := true;
      }
      var reply := ReplyMessage(response, now);
      messages := messages + [reply];
      isLoading := false;
    }

    /** `clearChat`: the transcript becomes the welcome message alone. */
    method ClearChat()
      requires Valid() && isOpen
      modifies this`messages
      ensures Valid()
      ensures messages == [Welcome]
      ensures input == old(input) && connectionError == old(connectionError) && isLoading == old(isLoading)
    {
      messages := [Welcome];
    }

    /** `handleSend` run to completion with nothing in between: the request
        goes through `client`, with `createOk` and `sent` deciding how it
        settles. An accepted send grows the transcript by exactly the user
        message and the reply, keeps everything before them, and ends with
        loading off; the connection error is raised only when creating the
        chat session failed, since a failed send resolves to the client's
        fallback text. */
    method HandleSend(client: GeminiService.ChatClient, createOk: bool, sent: GeminiService.SendResult, sentAt: int, repliedAt: int)
      returns (accepted: bool)
      requires Valid() && isOpen && client.Valid()
      modifies this, client
      ensures Valid() && client.Valid()
      ensures accepted <==> !AllWhitespace(old(input)) && !old(isLoading)
      ensures !accepted ==> && messages == old(messages) && input == old(input)
                            && isLoading == old(isLoading) && connectionError == old(connectionError)
                            && client.chatInstance == old(client.chatInstance)
      ensures accepted ==>
                && |messages| == |old(messages)| + 2
                && messages[..|old(messages)|] == old(messages)
                && messages[|old(messages)|] == ChatMessage(Stamp(sentAt), User, old(input))
                && messages[|old(messages)| + 1].role == Model
                && messages[|old(messages)| + 1].id == Stamp(repliedAt + 1)
                && input == "" && !isLoading
                && (connectionError <==> old(client.chatInstance).None? && !createOk)
      ensures accepted && !connectionError ==>
                messages[|old(messages)| + 1].text == if sent.Replied? then sent.text else GeminiService.ChatFallback
      ensures accepted && connectionError ==> messages[|old(messages)| + 1].text == ApologyText
      ensures isOpen == old(isOpen)
      ensures !accepted ==> client.forwarded == old(client.forwarded)
      ensures accepted ==> client.chatInstance == if connectionError then None else Some(GeminiService.DefaultChat)
      ensures accepted ==> client.forwarded == old(client.forwarded) + if connectionError then [] else [old(input)]
    {
      var message;
      accepted, message := BeginSend(sentAt);
      if !accepted {
        return;
      }
      var response := client.GetChatbotResponse(message, createOk, sent);
      FinishSend(response, repliedAt);
    }
  }
}
