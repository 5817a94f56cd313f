/** Chat-history entries and the joined history text every detector in
    systemprompt.py builds (systemprompt.py:28-30, 47-49, 69-71, 97-99). */
module Messages {
  import opened Wrappers
  import opened Text

  /** One element of a message's `content` list. A missing `text` key is
      `None`. */
  datatype Part = Part(text: Option<string>)

  /** A chat-history entry, a loosely typed JSON object. The HTTP handler
      reads its `role` and `text` keys; the prompt builder reads
      `content[0].text`. A key the object lacks is `None` (or, for
      `content`, the empty list). */
  datatype Message = Message(role: Option<string>, text: Option<string>, content: seq<Part>)

  /** `m.get("content", [{}])[0].get("text", "")` for a message whose
      `content` is truthy. */
  function ContentText(m: Message): string
    requires m.content != []
  {
    OrEmpty(m.content[0].text)
  }

  /** The texts the joined history is made of, in order: one per message
      with a non-empty `content`, and nothing for the others. */
  function ContentTexts(history: seq<Message>): (r: seq<string>)
    ensures |r| <= |history|
    ensures forall k :: 0 <= k < |history| && history[k].content != [] ==> ContentText(history[k]) in r
    ensures forall t :: t in r ==> exists k :: 0 <= k < |history| && history[k].content != [] && ContentText(history[k]) == t
  {
    if history == [] then []
    else
      (if history[0].content != [] then [ContentText(history[0])] else [])
      + ContentTexts(history[1..])
  }

  /** `" ".join(...)` over the history, before any lowercasing: every
      message text is found in it, and a history without content joins to
      the empty text. */
  function HistText(history: seq<Message>): (r: string)
    ensures forall t :: t in ContentTexts(history) ==> Occurs(t, r)
    ensures ContentTexts(history) == [] ==> r == []
  {
    var parts := ContentTexts(history);
    forall t | t in parts
      ensures Occurs(t, JoinWith(" ", parts))
    {
      var i :| 0 <= i < |parts| && parts[i] == t;
      OccursInJoin(" ", parts, i);
    }
    JoinWith(" ", parts)
  }

  lemma {:induction false} ContentTextsAppend(a: seq<Message>, b: seq<Message>)
    ensures ContentTexts(a + b) == ContentTexts(a) + ContentTexts(b)
    decreases |a|
  {
    if a == [] {
      assert a + b == b;
    } else {
      assert (a + b)[1..] == a[1..] + b;
      ContentTextsAppend(a[1..], b);
    }
  }

  /** Each message's text is part of the joined text. */
  lemma ContentTextInHistText(history: seq<Message>, k: nat)
    requires k < |history| && history[k].content != []
    ensures Occurs(ContentText(history[k]), HistText(history))
  {
    assert ContentText(history[k]) in ContentTexts(history);
  }

  /** The history text of a conversation is part of the history text of any
      longer conversation: what has been said stays said. */
  lemma HistTextGrows(history: seq<Message>, more: seq<Message>)
    ensures Occurs(HistText(history), HistText(history + more))
  {
    ContentTextsAppend(history, more);
    JoinGrows(" ", ContentTexts(history), ContentTexts(more));
  }

  /** A keyword found in the lowercased history stays found when the
      conversation goes on. */
  lemma KeywordPersists(key: string, history: seq<Message>, more: seq<Message>)
    requires Occurs(key, Lower(HistText(history)))
    ensures Occurs(key, Lower(HistText(history + more)))
  {
    HistTextGrows(history, more);
    OccursLower(HistText(history), HistText(history + more));
    OccursTrans(key, Lower(HistText(history)), Lower(HistText(history + more)));
  }

  /** A history of `{role, text}` records, the shape the HTTP handler
      receives, has no `content` and so contributes no text at all. */
  lemma {:induction false} TextShapedHistoryIsSilent(history: seq<Message>)
    requires forall k :: 0 <= k < |history| ==> history[k].content == []
    ensures HistText(history) == ""
    decreases |history|
  {
    if history != [] {
      TextShapedHistoryIsSilent(history[1..]);
    }
  }
}
