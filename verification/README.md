# Conversation store of the legal-AI chat front-end

This project models the only stateful logic in the chat page's `App` component:
the conversation store. The store has three parts:

- the saved conversations, a sequence of records that each hold a numeric id and the messages in display order;
- the active conversation;
- the contents of the text box.

Each event handler is a pure transition on an immutable `State`:

- typing (`EditInput`);
- submitting (`Submit`): the blank-input guard, appending the user message and clearing the box;
- the delayed mock reply (`CompleteReply`): appending the templated bot message and upserting the conversation into the collection by id;
- "New Chat" (`StartNew`): allocating the id `max + 1`;
- selecting a panel entry (`Select`).

The sidebar's views are pure functions: the collection shown newest first, and a one-line preview per entry.

The reply is scheduled with a timer and closes over values from submit time. The model splits the submission in two steps:

- `Submit` returns the values the callback captures: the conversation before the submit, the message list with the user message, and the submitted text.
- `CompleteReply` applies those captured values to whatever state exists when the timer fires.

`Sessions` keeps the queue of scheduled replies. Any event may come next, and the timers may fire in any order. `Sessions` is used to state that every state reachable from the start has pairwise-distinct conversation ids.

Modules:

- `JsText` (`text.dfy`): JavaScript `trim`, with the ECMAScript whitespace set written out, and `substring(0, n)`.
- `Optional` (`optional.dfy`): the option type.
- `Conversations` (`conversations.dfy`): the records, `findIndex`, the upsert, and the `max + 1` id allocation.
- `Store` (`store.dfy`): the state and one transition per handler.
- `Sidebar` (`sidebar.dfy`): the reversed list and the previews.
- `Sessions` (`session.dfy`): event traces and the reachable-state invariant.
- `Scenarios` (`scenarios.dfy`): properties of several steps in a row.

Two behaviours of the code are worth stating plainly:

- `startNewConversation` appends the empty conversation to the collection at once (src/App.tsx:59). So a second "New Chat" pressed right after the first allocates the next id, and the collection then holds both empty chats (`Scenarios.StartNewTwiceFreshIds`).
- The reply callback rebuilds the conversation from the values it captured at submit time. It then makes that conversation active again, whatever is active when the timer fires (src/App.tsx:35-36). `Scenarios.SubmitThenReplyActive` holds for every state `t` the reply is delivered to.

## Model

| member | source | states |
|---|---|---|
| JsText.Trim | src/App.tsx:25 | `trim` cuts only whitespace from the two ends and leaves a slice that neither starts nor ends with whitespace; the result is empty exactly when the input is whitespace only, which is the condition under which a submit is ignored |
| JsText.Substring | src/App.tsx:103 | `substring(0, n)` is a prefix of the text of length min(n, length) |
| Conversations.FindIndex | src/App.tsx:40 | the index returned is the first entry with the id; no index (the source's -1) exactly when no entry has the id |
| Conversations.Upsert | src/App.tsx:39-48 | when the id is present, only the first entry with that id is replaced, so the length and all other entries are unchanged; when it is absent, the record is appended at the end; afterwards the id is present, and pairwise-distinct ids stay distinct |
| Conversations.UpsertLeavesOneEntry | src/App.tsx:39-48 | after an upsert into a collection with distinct ids, the upserted id occurs exactly once (by an independent count), and that entry is the upserted record with its final messages |
| Conversations.MaxId | src/App.tsx:57 | `Math.max` over the ids bounds every id and is itself one of them |
| Conversations.NextId | src/App.tsx:57 | the new id is 1 for an empty collection; otherwise it is one more than an id in use and strictly above every id in use |
| Store.Initial | src/App.tsx:17-19 | the start state: nothing saved, active conversation 0 with no messages, empty text box; ids are trivially distinct |
| Store.EditInput | src/App.tsx:194 | typing changes only the text box |
| Store.Submit | src/App.tsx:23-31 | a whitespace-only input changes nothing and schedules nothing; otherwise the old messages stay as a prefix and exactly one user message with the untrimmed text is appended; the id is kept, the box is cleared, the collection is untouched, and the reply captures the pre-submit conversation, the new message list and the text |
| Store.ReplyTextQuotesInput | src/App.tsx:34 | the mock answer is `You said: "` + input + `". This is a mock response.`; the input can be read back from it, so different inputs get different answers |
| Store.CompleteReply | src/App.tsx:33-48 | the active conversation becomes the captured one with the captured messages plus one bot message carrying the answer text; it replaces the first saved entry with its id, or is appended when none exists; the text box is untouched; distinct ids stay distinct |
| Store.StartNew | src/App.tsx:56-60 | the new empty conversation gets an id above every saved id (1 if none is saved); it is appended to the collection and made active; distinct ids stay distinct |
| Store.Select | src/App.tsx:64-66 | the chosen conversation becomes active; the collection and the text box are untouched |
| Sidebar.DisplayList | src/App.tsx:91 | the panel lists the collection in reverse: position i shows entry n-1-i |
| Sidebar.DisplayListTwice | src/App.tsx:91 | reversing the panel order gives back the collection, so the view loses and reorders nothing beyond the reversal |
| Sidebar.Preview | src/App.tsx:102-104 | with no messages the label is "Empty conversation"; otherwise it is the first min(30, length) characters of the first message's text followed by "..." |
| Sidebar.Entries | src/App.tsx:91-104 | the i-th label from the top is the preview of entry n-1-i |
| Sidebar.PreviewEmptyIff | src/App.tsx:102-104 | the label is "Empty conversation" exactly when the conversation has no messages |
| Sidebar.PreviewStableUnderAppend | src/App.tsx:102-104 | a label depends on the first message only, so later messages never change it |
| Sidebar.StartNewShowsFirst | src/App.tsx:91 | after "New Chat", the new conversation is at the top of the panel, labelled as empty, above the entries shown before |
| Sessions.Step | src/App.tsx:23-66 | one event: a blank submit changes nothing; a sent one moves the store to the submit's next state and appends exactly the reply it scheduled to the timers; firing timer k delivers that reply through the reply callback and removes exactly timer k; firing a missing timer changes nothing; typing, New Chat and picking run their handler and keep every pending reply; every event keeps ids distinct and keeps each pending reply answering a non-blank text that ends its captured message list |
| Sessions.Run | src/App.tsx:23-66 | any sequence of events keeps the session invariant |
| Sessions.ReachableValid | src/App.tsx:17-66 | every state reachable from the start has pairwise-distinct conversation ids |
| Sessions.FireEndsWithExchange | src/App.tsx:33-36 | a delivered reply leaves the active conversation ending with the user's text and then the mock answer to it |
| Scenarios.SubmitThenReplyActive | src/App.tsx:27-36 | a non-blank submit followed by its reply adds exactly two messages to the conversation that was active at submit time: the text as typed, then the mock answer |
| Scenarios.SubmitThenReplySaved | src/App.tsx:39-48 | after the reply, the conversation's id occurs exactly once in the collection, paired with the final message list |
| Scenarios.NewChatExchange | src/App.tsx:23-60 | "New Chat", typing, sending and the reply together append exactly one entry at the end of the collection: it has the next id and the two exchange messages, and earlier entries are untouched |
| Scenarios.SelectThenExchange | src/App.tsx:23-66 | selecting a saved conversation and sending extends that entry in place; no other entry changes |
| Scenarios.StartNewTwiceFreshIds | src/App.tsx:56-60 | two "New Chat" presses in a row allocate consecutive ids, and the collection becomes the old one followed by the two empty conversations with those ids |

## Left out

- Rendering (JSX, Tailwind classes, framer-motion animations, lucide icons), src/App.tsx:69-214: presentation only.
- The scroll-into-view effect (src/App.tsx:52-54) and the `isSidebarOpen` flag: DOM and UI state, nothing to state about the store.
- `e.preventDefault()`: a browser call with no effect on the store.
- The 500 ms delay of `setTimeout`: the reply is an explicit later step. `Sessions` lets replies fire in any order, but the model states nothing about overlapping replies. Because each callback captures its own copy of the conversation, a second reply can overwrite the first reply's bot message. That stale-closure race is not analysed.
- Message ids from `Date.now()`, and the `+ 1` on the bot's id: the clock is an external call, so both ids are opaque string parameters. The uniqueness of message ids within a conversation is therefore not modelled.
- JsText.Substring: counts Dafny characters (Unicode scalar values), not the UTF-16 code units JavaScript's `substring` counts. The two agree only when the text has no character outside the Basic Multilingual Plane.
- Sidebar.Preview: the 30-character cut counts Unicode scalar values, while the page counts UTF-16 code units. Any emoji or other character outside the Basic Multilingual Plane among the first characters moves the cut. For example, for a first message of 20 emoji (40 code units), the page shows 15 emoji and "...", but `Preview` shows all 20 and "...".
- Conversations.NextId: uses unbounded integers. JavaScript numbers are doubles, but ids here stay small, so `max + 1` is modelled as exact.
- Selecting a conversation that is not saved: the page only offers saved entries, but `Store.Select` takes any conversation. The lemmas that rely on a saved entry state it in their preconditions.
