/**
 * A session of the store: the store state together with the replies that
 * have been scheduled and not yet delivered. Every user event and every
 * timer firing is one step; timers may fire in any order. This is the
 * sequential event trace only; it does not model timing.
 */
module Sessions {
  import opened JsText
  import opened Conversations
  import opened Store

  datatype Session = Session(store: State, timers: seq<PendingReply>)

  datatype Event =
    | Type(text: string)                 // the text box changes
    | Send(messageId: string)            // the form is submitted
    | Fire(timer: nat, botId: string)    // one scheduled reply is delivered
    | NewChat                            // the "New Chat" button
    | Pick(conversation: Conversation)   // a panel entry is clicked

  /** A scheduled reply answers a non-blank submission, and the captured
      message list ends with that submission as a user message. */
  ghost predicate WellFormedReply(p: PendingReply) {
    && !IsBlank(p.input)
    && |p.updatedMessages| > 0
    && p.updatedMessages[|p.updatedMessages| - 1].isUser
    && p.updatedMessages[|p.updatedMessages| - 1].text == p.input
  }

  ghost predicate Inv(w: Session) {
    && Valid(w.store)
    && forall k :: 0 <= k < |w.timers| ==> WellFormedReply(w.timers[k])
  }

  function Start(): (w: Session)
    ensures Inv(w) && w.timers == []
  {
    Session(Initial(), [])
  }

  /** One event. A submit that schedules a reply adds it to the timers; a
      firing removes its timer and delivers the reply; firing a timer that
      does not exist does nothing. Typing, "New Chat" and picking run their
      handler and keep every pending reply: nothing cancels a timer. */
  function Step(w: Session, e: Event): (r: Session)
    ensures e.Send? && IsBlank(w.store.input) ==> r == w
    ensures e.Send? && !IsBlank(w.store.input) ==> |r.timers| == |w.timers| + 1
    ensures e.Fire? && e.timer < |w.timers| ==> |r.timers| + 1 == |w.timers|
    ensures e.Fire? && e.timer >= |w.timers| ==> r == w
    ensures e.Send? && !IsBlank(w.store.input) ==>
              && r.store == Submit(w.store, e.messageId).next
              && r.timers == w.timers + [Submit(w.store, e.messageId).reply.value]
    ensures e.Fire? && e.timer < |w.timers| ==>
              && r.store == CompleteReply(w.store, w.timers[e.timer], e.botId)
              && r.timers == w.timers[..e.timer] + w.timers[e.timer + 1..]
    ensures e.Type? ==> r == Session(EditInput(w.store, e.text), w.timers)
    ensures e.NewChat? ==> r == Session(StartNew(w.store), w.timers)
    ensures e.Pick? ==> r == Session(Select(w.store, e.conversation), w.timers)
    ensures Inv(w) ==> Inv(r)
  {
    match e
    case Type(text) => w.(store := EditInput(w.store, text))
    case Send(messageId) => Schedule(w, messageId)
    case Fire(k, botId) => if k < |w.timers| then Deliver(w, k, botId) else w
    case NewChat => w.(store := StartNew(w.store))
    case Pick(c) => w.(store := Select(w.store, c))
  }

  /** The submit handler within a session: a reply it schedules joins the
      timers. */
  function Schedule(w: Session, messageId: string): (r: Session)
    ensures Inv(w) ==> Inv(r)
  {
    var sub := Submit(w.store, messageId);
    match sub.reply
    case None => w.(store := sub.next)
    case Some(p) => Session(sub.next, w.timers + [p])
  }

  /** Timer `k` fires: its reply is delivered and the timer leaves the queue. */
  function Deliver(w: Session, k: nat, botId: string): (r: Session)
    requires k < |w.timers|
    ensures |r.timers| + 1 == |w.timers|
    ensures Inv(w) ==> Inv(r)
  {
    var rest := w.timers[..k] + w.timers[k + 1..];
    assert forall j :: 0 <= j < |rest| ==>
             rest[j] == w.timers[if j < k then j else j + 1];
    Session(CompleteReply(w.store, w.timers[k], botId), rest)
  }

  /** The events applied one after another. */
  function Run(w: Session, es: seq<Event>): (r: Session)
    ensures Inv(w) ==> Inv(r)
    decreases |es|
  {
    if |es| == 0 then w else Run(Step(w, es[0]), es[1..])
  }

  /** Every state reached from the start has distinct collection ids. */
  lemma ReachableValid(es: seq<Event>)
    ensures DistinctIds(Run(Start(), es).store.conversations)
  {
  }

  /** Delivering a reply in a reachable session leaves the active
      conversation ending with the submitted text as a user message
      followed by the mock answer to it. */
  lemma FireEndsWithExchange(w: Session, k: nat, botId: string)
    requires Inv(w) && k < |w.timers|
    ensures var m := Step(w, Fire(k, botId)).store.current.messages;
            && |m| >= 2
            && m[|m| - 2].isUser && m[|m| - 2].text == w.timers[k].input
            && m[|m| - 1] == Message(botId, ReplyText(w.timers[k].input), false)
  {
    assert WellFormedReply(w.timers[k]);
  }
}
