/**
 * What the "Recent Chats" panel derives from the collection: the entries in
 * reverse order (newest first) and a one-line preview per entry. Both are
 * pure views; the collection itself is never reordered.
 */
module Sidebar {
  import opened JsText
  import opened Conversations
  import opened Store

  /** `conversations.slice().reverse()`. */
  function DisplayList(cs: seq<Conversation>): (r: seq<Conversation>)
    ensures |r| == |cs|
    ensures forall i :: 0 <= i < |cs| ==> r[i] == cs[|cs| - 1 - i]
  {
    if |cs| == 0 then []
    else
      var rest := DisplayList(cs[1..]);
      assert forall i :: 0 <= i < |rest| ==> rest[i] == cs[|cs| - 1 - i];
      rest + [cs[0]]
  }

  const PreviewLength: nat := 30
  const EmptyPreview: string := "Empty conversation"
  const Ellipsis: string := "..."

  /** The label of one panel entry: the first message's first 30
      characters followed by an ellipsis, or a fixed text when the
      conversation has no message yet. */
  function Preview(c: Conversation): (r: string)
    ensures |c.messages| == 0 ==> r == EmptyPreview
    ensures |c.messages| > 0 ==>
              && |r| == Min(PreviewLength, |c.messages[0].text|) + |Ellipsis|
              && r[..|r| - |Ellipsis|] <= c.messages[0].text
              && r[|r| - |Ellipsis|..] == Ellipsis
  {
    if |c.messages| > 0 then Substring(c.messages[0].text, PreviewLength) + Ellipsis
    else EmptyPreview
  }

  /** The labels of the panel, top to bottom. */
  function Entries(cs: seq<Conversation>): (r: seq<string>)
    ensures |r| == |cs|
    ensures forall i :: 0 <= i < |cs| ==> r[i] == Preview(cs[|cs| - 1 - i])
  {
    var shown := DisplayList(cs);
    seq(|shown|, i requires 0 <= i < |shown| => Preview(shown[i]))
  }

  /** Showing the list twice in reverse gives back the collection: the
      panel order is exactly the storage order read backwards. */
  lemma {:induction false} DisplayListTwice(cs: seq<Conversation>)
    ensures DisplayList(DisplayList(cs)) == cs
  {
    var r := DisplayList(DisplayList(cs));
    assert forall i :: 0 <= i < |cs| ==> r[i] == cs[i];
  }

  /** The fixed label and the label of a non-empty conversation never
      coincide, so the label tells whether a conversation has messages. */
  lemma PreviewEmptyIff(c: Conversation)
    ensures Preview(c) == EmptyPreview <==> |c.messages| == 0
  {
    if |c.messages| > 0 {
      var r := Preview(c);
      assert r[|r| - 1] == '.';
      assert EmptyPreview[|EmptyPreview| - 1] == 'n';
    }
  }

  /** A label depends on the first message only, so it does not change as a
      conversation grows. */
  lemma PreviewStableUnderAppend(c: Conversation, more: seq<Message>)
    requires |c.messages| > 0
    ensures Preview(c.(messages := c.messages + more)) == Preview(c)
  {
    assert (c.messages + more)[0] == c.messages[0];
  }

  /** A new chat appears at the top of the panel, labelled as empty, above
      the entries that were already shown. */
  lemma StartNewShowsFirst(s: State)
    ensures DisplayList(StartNew(s).conversations)[0] == StartNew(s).current
    ensures DisplayList(StartNew(s).conversations)[1..] == DisplayList(s.conversations)
    ensures Entries(StartNew(s).conversations)[0] == EmptyPreview
  {
    var before := DisplayList(s.conversations);
    var after := DisplayList(StartNew(s).conversations);
    assert forall i :: 0 <= i < |before| ==> after[1..][i] == before[i];
  }
}
