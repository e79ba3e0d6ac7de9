/** The chat panel: a message log, a text input, a send button, Enter to
    send and a clear button. The delayed canned reply is not part of a send
    here; it is its own event, with no timing attached. */
module Chat {
  import opened Text

  datatype Message = Message(text: string, isUser: bool)

  datatype ChatState = ChatState(input: string, log: seq<Message>)

  /** The panel as it first appears: nothing typed, nothing sent. */
  const Initial: ChatState := ChatState("", [])

  /** The canned reply appended some time after each send. */
  const BotReply: string := "Sincronização iniciada! Aguarde enquanto processamos sua solicitação."

  /** The send button is greyed out while the input is blank. */
  predicate SendDisabled(st: ChatState) {
    IsBlank(st.input)
  }

  /** Sending: with a blank input nothing happens; otherwise the untrimmed
      input is appended to the log as the user's message and the input is
      cleared. */
  function Send(st: ChatState): (r: ChatState)
    ensures IsBlank(st.input) ==> r == st
    ensures !IsBlank(st.input) ==>
      && |r.log| == |st.log| + 1
      && r.log[..|st.log|] == st.log
      && r.log[|st.log|] == Message(st.input, true)
      && r.input == []
  {
    if IsBlank(st.input) then st
    else ChatState("", st.log + [Message(st.input, true)])
  }

  /** The delayed reply arriving: one non-user message at the end. */
  function ReceiveReply(st: ChatState): (r: ChatState)
    ensures r.input == st.input
    ensures r.log == st.log + [Message(BotReply, false)]
  {
    st.(log := st.log + [Message(BotReply, false)])
  }

  /** The clear button: empties the log, keeps whatever is typed. */
  function ClearChat(st: ChatState): (r: ChatState)
    ensures r.log == [] && r.input == st.input
  {
    st.(log := [])
  }

  /** A key press sends exactly when it is Enter without Shift. */
  predicate SendsOnKey(key: string, shiftKey: bool) {
    key == "Enter" && !shiftKey
  }

  /** A key press in the input; text entry itself arrives as an edit. */
  function KeyPress(st: ChatState, key: string, shiftKey: bool): (r: ChatState)
    ensures SendsOnKey(key, shiftKey) ==> r == Send(st)
    ensures !SendsOnKey(key, shiftKey) ==> r == st
  {
    if key == "Enter" && !shiftKey then Send(st) else st
  }

  /** Typing in the input. */
  function Edit(st: ChatState, text: string): (r: ChatState)
    ensures r.input == text && r.log == st.log
  {
    st.(input := text)
  }

  /** The disabled button and the send handler agree: the button is greyed
      out exactly when pressing it would change nothing. */
  lemma DisabledIffSendIsNoOp(st: ChatState)
    ensures SendDisabled(st) <==> Send(st) == st
  {
  }

  /** Whitespace of any kind never reaches the log. */
  lemma WhitespaceIsNotSent(st: ChatState)
    requires forall i :: 0 <= i < |st.input| ==> IsWhitespace(st.input[i])
    ensures Send(st) == st
  {
  }

  /** Shift+Enter and every other key leave the panel as it is; Enter sends. */
  lemma KeyPressLogGrowth(st: ChatState, key: string, shiftKey: bool)
    ensures |KeyPress(st, key, shiftKey).log| ==
            if SendsOnKey(key, shiftKey) && !IsBlank(st.input) then |st.log| + 1 else |st.log|
  {
  }

  /** Every user message in the log came from a non-blank input: sends,
      replies and clears all keep this. */
  predicate UserMessagesNonBlank(log: seq<Message>) {
    forall i :: 0 <= i < |log| && log[i].isUser ==> !IsBlank(log[i].text)
  }

  lemma AppendKeepsUserMessagesNonBlank(log: seq<Message>, m: Message)
    requires UserMessagesNonBlank(log)
    requires m.isUser ==> !IsBlank(m.text)
    ensures UserMessagesNonBlank(log + [m])
  {
    var log' := log + [m];
    forall i | 0 <= i < |log'| && log'[i].isUser
      ensures !IsBlank(log'[i].text)
    {
      if i < |log| {
        assert log'[i] == log[i];
      }
    }
  }

  datatype Event = Type(text: string) | Press(key: string, shiftKey: bool) | ClickSend | ClickClear | Reply

  /** One user interaction, or the reply arriving. Typing only replaces the
      input; clearing and the reply only touch the log; a key press or the
      send button appends at most one user message. */
  function Step(st: ChatState, e: Event): (r: ChatState)
    ensures e.Type? ==> r.log == st.log && r.input == e.text
    ensures e.ClickClear? ==> r.log == [] && r.input == st.input
    ensures e.Reply? ==> r.input == st.input && r.log == st.log + [Message(BotReply, false)]
    ensures e.ClickSend? ==> (r == st <==> IsBlank(st.input))
    ensures e.Press? && !SendsOnKey(e.key, e.shiftKey) ==> r == st
    ensures (e.ClickSend? || (e.Press? && SendsOnKey(e.key, e.shiftKey))) && !IsBlank(st.input) ==>
              r.log == st.log + [Message(st.input, true)] && r.input == []
  {
    match e
    case Type(text) => Edit(st, text)
    case Press(key, shiftKey) => KeyPress(st, key, shiftKey)
    case ClickSend => Send(st)
    case ClickClear => ClearChat(st)
    case Reply => ReceiveReply(st)
  }

  lemma StepKeepsUserMessagesNonBlank(st: ChatState, e: Event)
    requires UserMessagesNonBlank(st.log)
    ensures UserMessagesNonBlank(Step(st, e).log)
    ensures UserMessagesNonBlank(Initial.log)
  {
    match e
    case Type(_) =>
    case ClickClear =>
    case Reply =>
      AppendKeepsUserMessagesNonBlank(st.log, Message(BotReply, false));
    case Press(key, shiftKey) =>
      if SendsOnKey(key, shiftKey) && !IsBlank(st.input) {
        assert Step(st, e).log == st.log + [Message(st.input, true)];
        AppendKeepsUserMessagesNonBlank(st.log, Message(st.input, true));
      }
    case ClickSend =>
      if !IsBlank(st.input) {
        assert Step(st, e).log == st.log + [Message(st.input, true)];
        AppendKeepsUserMessagesNonBlank(st.log, Message(st.input, true));
      }
  }
}
