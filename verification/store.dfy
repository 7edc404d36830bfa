/**
 * The conversation store held by the `App` component: the saved
 * conversations, the active conversation and the text-box contents, with
 * one pure transition per event handler.
 *
 * A submission is split in two steps. `Submit` is the synchronous part of
 * the handler; it returns, besides the new state, the values the delayed
 * reply callback closes over (`PendingReply`). `CompleteReply` is that
 * callback, applied later to whatever the state is by then.
 */
module Store {
  import opened Optional
  import opened JsText
  import opened Conversations

  datatype State = State(
    conversations: seq<Conversation>,  // the saved conversations, oldest first
    current: Conversation,             // the active conversation
    input: string)                     // the text box

  /** What the reply callback captures when it is scheduled: the active
      conversation as it was before the submit, its messages with the user
      message appended, and the submitted text. */
  datatype PendingReply = PendingReply(
    conversation: Conversation,
    updatedMessages: seq<Message>,
    input: string)

  /** The result of a submit: the next state and, unless the input was
      blank, the reply that has been scheduled. */
  datatype Submitted = Submitted(next: State, reply: Option<PendingReply>)

  /** No collection entry shares its id with another. */
  ghost predicate Valid(s: State) {
    DistinctIds(s.conversations)
  }

  /** Nothing saved, a draft conversation 0 with no messages, an empty box. */
  function Initial(): (s: State)
    ensures Valid(s)
    ensures s.conversations == [] && s.current.id == 0
    ensures s.current.messages == [] && s.input == ""
  {
    State([], Conversation(0, []), "")
  }

  /** Typing into the text box: only the input changes. */
  function EditInput(s: State, text: string): (r: State)
    ensures r.input == text
    ensures r.conversations == s.conversations && r.current == s.current
    ensures Valid(s) ==> Valid(r)
  {
    s.(input := text)
  }

  /** The synchronous part of `handleSubmit`. A blank input is ignored and
      nothing changes. Otherwise the untrimmed input is appended to the
      active conversation as a user message with id `messageId`, the box is
      cleared, the collection is left alone and a reply is scheduled. */
  function Submit(s: State, messageId: string): (r: Submitted)
    ensures IsBlank(s.input) ==> r == Submitted(s, None)
    ensures !IsBlank(s.input) ==>
              && r.next.current.id == s.current.id
              && r.next.current.messages == s.current.messages + [Message(messageId, s.input, true)]
              && r.next.input == ""
              && r.next.conversations == s.conversations
              && r.reply == Some(PendingReply(s.current, r.next.current.messages, s.input))
    ensures Valid(s) ==> Valid(r.next)
  {
    if Trim(s.input) == [] then Submitted(s, None)
    else
      var userMessage := Message(messageId, s.input, true);
      var updatedMessages := s.current.messages + [userMessage];
      var next := State(s.conversations, s.current.(messages := updatedMessages), "");
      Submitted(next, Some(PendingReply(s.current, updatedMessages, s.input)))
  }

  const ReplyPrefix: string := "You said: \""
  const ReplySuffix: string := "\". This is a mock response."

  /** The mock answer to `input`: the input quoted inside a fixed sentence. */
  function ReplyText(input: string): string {
    ReplyPrefix + input + ReplySuffix
  }

  /** The mock answer is the fixed prefix, the input verbatim and the fixed
      suffix, so the submitted text can be read back from it: two different
      inputs never get the same answer. */
  lemma ReplyTextQuotesInput(input: string, other: string)
    ensures var r := ReplyText(input);
            && |r| == |ReplyPrefix| + |input| + |ReplySuffix|
            && r[..|ReplyPrefix|] == ReplyPrefix
            && r[|ReplyPrefix|..|ReplyPrefix| + |input|] == input
            && r[|ReplyPrefix| + |input|..] == ReplySuffix
    ensures ReplyText(input) == ReplyText(other) ==> input == other
  {
    var r := ReplyText(input);
    assert r[|ReplyPrefix|..|ReplyPrefix| + |input|] == input;
    if ReplyText(input) == ReplyText(other) {
      assert |other| == |input|;
      assert ReplyText(other)[|ReplyPrefix|..|ReplyPrefix| + |other|] == other;
    }
  }

  /** The reply callback. The captured conversation, with the captured
      messages and one bot message after them, becomes the active
      conversation (whatever is active now) and is upserted by id into the
      collection as it stands now. The text box is not touched. */
  function CompleteReply(s: State, p: PendingReply, botId: string): (r: State)
    ensures r.current.id == p.conversation.id
    ensures r.current.messages
              == p.updatedMessages + [Message(botId, ReplyText(p.input), false)]
    ensures r.input == s.input
    ensures forall i {:trigger IsFirstIndex(s.conversations, r.current.id, i)} ::
              IsFirstIndex(s.conversations, r.current.id, i) ==>
                r.conversations == s.conversations[i := r.current]
    ensures !HasId(s.conversations, r.current.id) ==>
              r.conversations == s.conversations + [r.current]
    ensures Valid(s) ==> Valid(r)
  {
    var botMessage := Message(botId, ReplyText(p.input), false);
    var finalMessages := p.updatedMessages + [botMessage];
    var saved := p.conversation.(messages := finalMessages);
    var cs := Upsert(s.conversations, saved);
    State(cs, saved, s.input)
  }

  /** `startNewConversation`: an empty conversation with a fresh id, above
      every id saved so far, is both appended to the collection and made
      active. The text box is not touched. */
  function StartNew(s: State): (r: State)
    ensures r.current.messages == []
    ensures r.conversations == s.conversations + [r.current]
    ensures forall i :: 0 <= i < |s.conversations| ==> s.conversations[i].id < r.current.id
    ensures |s.conversations| == 0 ==> r.current.id == 1
    ensures |s.conversations| > 0 ==> HasId(s.conversations, r.current.id - 1)
    ensures r.input == s.input
    ensures Valid(s) ==> Valid(r)
  {
    var c := Conversation(NextId(s.conversations), []);
    State(s.conversations + [c], c, s.input)
  }

  /** `selectConversation`: the given conversation becomes active; the
      collection and the text box are left as they are. */
  function Select(s: State, c: Conversation): (r: State)
    ensures r.current == c
    ensures r.conversations == s.conversations && r.input == s.input
    ensures Valid(s) ==> Valid(r)
  {
    s.(current := c)
  }
}
