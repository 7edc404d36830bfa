/**
 * Properties of several store steps in a row: a full exchange, a first
 * exchange in a new chat, an exchange in a selected chat, and two new
 * chats in a row.
 */
module Scenarios {
  import opened JsText
  import opened Conversations
  import opened Store

  /** The two messages one non-blank submission adds: the text as typed,
      then the mock answer to it. */
  function Exchange(text: string, messageId: string, botId: string): seq<Message> {
    [Message(messageId, text, true), Message(botId, ReplyText(text), false)]
  }

  /** A submission and its reply add exactly the two exchange messages to
      the conversation that was active at submit time. This holds whatever
      state `t` the reply is delivered to, because the callback works on
      what it captured, not on what is active when it fires. */
  lemma SubmitThenReplyActive(s: State, t: State, messageId: string, botId: string)
    requires !IsBlank(s.input)
    ensures Submit(s, messageId).reply.Some?
    ensures CompleteReply(t, Submit(s, messageId).reply.value, botId).current
              == Conversation(s.current.id, s.current.messages + Exchange(s.input, messageId, botId))
  {
    var p := Submit(s, messageId).reply.value;
    var u := Message(messageId, s.input, true);
    var b := Message(botId, ReplyText(s.input), false);
    assert p == PendingReply(s.current, s.current.messages + [u], s.input);
    assert (s.current.messages + [u]) + [b] == s.current.messages + Exchange(s.input, messageId, botId);
  }

  /** After the reply, the conversation is saved under its id exactly once,
      and the saved entry is the active conversation with both messages. */
  lemma SubmitThenReplySaved(s: State, t: State, messageId: string, botId: string)
    requires !IsBlank(s.input)
    requires Valid(t)
    ensures Submit(s, messageId).reply.Some?
    ensures var done := CompleteReply(t, Submit(s, messageId).reply.value, botId);
            && Count(done.conversations, s.current.id) == 1
            && forall j :: 0 <= j < |done.conversations| && done.conversations[j].id == s.current.id ==>
                 done.conversations[j] == done.current
  {
    var done := CompleteReply(t, Submit(s, messageId).reply.value, botId);
    assert done.current.id == s.current.id;
    assert done.conversations == Upsert(t.conversations, done.current);
    UpsertLeavesOneEntry(t.conversations, done.current);
  }

  /** "New Chat", type a message, send it, receive the reply: the collection
      gains exactly one entry, at the end, with the next id and the two
      exchange messages; the earlier entries are untouched. */
  lemma NewChatExchange(s: State, text: string, messageId: string, botId: string)
    requires !IsBlank(text)
    ensures var typed := EditInput(StartNew(s), text);
            var sub := Submit(typed, messageId);
            sub.reply.Some? &&
            var done := CompleteReply(sub.next, sub.reply.value, botId);
            && done.conversations
               == s.conversations + [Conversation(NextId(s.conversations), Exchange(text, messageId, botId))]
            && done.current == Conversation(NextId(s.conversations), Exchange(text, messageId, botId))
  {
    var n := |s.conversations|;
    var started := StartNew(s);
    var c0 := started.current;
    assert c0 == Conversation(NextId(s.conversations), []);
    var typed := EditInput(started, text);
    var sub := Submit(typed, messageId);
    SubmitThenReplyActive(typed, sub.next, messageId, botId);
    var done := CompleteReply(sub.next, sub.reply.value, botId);
    assert done.current == Conversation(c0.id, Exchange(text, messageId, botId));
    assert sub.next.conversations == s.conversations + [c0];
    assert IsFirstIndex(sub.next.conversations, c0.id, n);
    assert done.conversations == (s.conversations + [c0])[n := done.current];
  }

  /** Selecting a saved conversation and sending the text in the box
      extends that conversation in place: only its own entry changes. */
  lemma SelectThenExchange(s: State, i: nat, messageId: string, botId: string)
    requires Valid(s) && i < |s.conversations|
    requires !IsBlank(s.input)
    ensures var picked := Select(s, s.conversations[i]);
            var sub := Submit(picked, messageId);
            sub.reply.Some? &&
            var done := CompleteReply(sub.next, sub.reply.value, botId);
            var c := s.conversations[i];
            done.conversations
              == s.conversations[i := Conversation(c.id, c.messages + Exchange(s.input, messageId, botId))]
  {
    var c := s.conversations[i];
    var picked := Select(s, c);
    var sub := Submit(picked, messageId);
    SubmitThenReplyActive(picked, sub.next, messageId, botId);
    var done := CompleteReply(sub.next, sub.reply.value, botId);
    assert done.current == Conversation(c.id, c.messages + Exchange(s.input, messageId, botId));
    assert sub.next.conversations == s.conversations;
    assert IsFirstIndex(s.conversations, c.id, i);
  }

  /** Because a new chat is saved at once, a second "New Chat" right after
      the first allocates the next id rather than the same one, and the
      collection then holds both empty chats. */
  lemma StartNewTwiceFreshIds(s: State)
    ensures StartNew(StartNew(s)).current.id == StartNew(s).current.id + 1
    ensures |StartNew(StartNew(s)).conversations| == |s.conversations| + 2
    ensures StartNew(StartNew(s)).conversations
              == s.conversations + [Conversation(NextId(s.conversations), []),
                                    Conversation(NextId(s.conversations) + 1, [])]
  {
    var once := StartNew(s);
    var twice := StartNew(once);
    assert HasId(once.conversations, twice.current.id - 1);
    assert once.conversations[|s.conversations|] == once.current;
  }
}
